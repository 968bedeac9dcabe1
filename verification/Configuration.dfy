/** What a ConfigureFrontend request means, and that staging its records and
    applying them achieves it (crates/daphne-sc-core/src/rpu_wire.rs, lines
    292-333; crates/daphne-sc-rpu/src/lib.rs, lines 211-238;
    crates/daphne-sc-rpu/src/mmio.rs, lines 687-710). */
module Configuration {
  import opened Words
  import opened Afe
  import opened AfeFunctions
  import opened AfeHw
  import opened Board
  import opened DacOutputs
  import opened PairedDacs
  import opened PartialAfes
  import opened Records
  import opened Frontend
  import opened Staging
  import opened Session

  // ---------- slots and the writes they make ----------

  /** Each slot holds a record for its own channel, at its own place. */
  ghost predicate SlotsPlaced(slots: seq<Option<ChannelRecord>>) {
    forall i, j :: 0 <= i < j < |slots| && slots[i].Some? && slots[j].Some? ==>
      PlaceOf(slots[i].value) != PlaceOf(slots[j].value)
  }

  lemma {:induction false} SlotIsSet(slots: seq<Option<ChannelRecord>>, q: Quantity, i: nat)
    requires ChannelsApplicable(slots) && SlotsPlaced(slots) && i < |slots| && slots[i].Some?
    ensures LastSet(ChannelWrites(slots, q), PlaceOf(slots[i].value)) == Some(q.Of(slots[i].value))
  {
    var n := |slots| - 1;
    var rest, last := slots[..n], slots[n];
    var before := ChannelWrites(rest, q);
    if last.Some? {
      assert ChannelWrites(slots, q) == before + [ChannelWrite(last.value, q)];
      assert (before + [ChannelWrite(last.value, q)])[..|before|] == before;
    } else {
      assert ChannelWrites(slots, q) == before;
    }
    if i < n {
      SlotIsSet(rest, q, i);
    }
  }

  lemma {:induction false} OtherPlaceNotSet(slots: seq<Option<ChannelRecord>>, q: Quantity, p: Place)
    requires ChannelsApplicable(slots)
    requires forall i :: 0 <= i < |slots| && slots[i].Some? ==> PlaceOf(slots[i].value) != p
    ensures LastSet(ChannelWrites(slots, q), p) == None
  {
    if slots != [] {
      var n := |slots| - 1;
      var before := ChannelWrites(slots[..n], q);
      OtherPlaceNotSet(slots[..n], q, p);
      if slots[n].Some? {
        assert ChannelWrites(slots, q) == before + [ChannelWrite(slots[n].value, q)];
        assert (before + [ChannelWrite(slots[n].value, q)])[..|before|] == before;
      } else {
        assert ChannelWrites(slots, q) == before;
      }
    }
  }

  /** Each slot holds a record of its own AFE. */
  predicate AfesInPlace(slots: seq<Option<AfeRecord>>) {
    forall i :: 0 <= i < |slots| && slots[i].Some? ==> slots[i].value.afePl == i
  }

  function SlotLevel(slot: Option<AfeRecord>, o: Output): Option<u16> {
    match (slot, o)
    case (Some(c), Gain(_)) => Some(c.attenuation)
    case (Some(c), Bias(_)) => if c.bias != 0 then Some(c.bias) else None
    case _ => None
  }

  lemma LastLevelAppends(ws: seq<LevelWrite>, xs: seq<LevelWrite>, o: Output)
    requires |xs| <= 2
    ensures LastLevel(ws + xs, o) == if LastLevel(xs, o).Some? then LastLevel(xs, o) else LastLevel(ws, o)
  {
    if |xs| == 0 {
      assert ws + xs == ws;
    } else if |xs| == 1 {
      assert (ws + xs)[..|ws|] == ws && xs[..0] == [];
    } else {
      assert (ws + xs)[..|ws| + 1] == ws + [xs[0]];
      assert (ws + [xs[0]])[..|ws|] == ws;
      assert xs[..1] == [xs[0]] && [xs[0]][..0] == [];
    }
  }

  lemma AfeLevelsOf(c: AfeRecord, o: Output)
    requires AfeApplicable(c)
    ensures |AfeLevels(c)| <= 2
    ensures LastLevel(AfeLevels(c), o)
         == if o.Vbias? || o.afe != c.afePl then None else SlotLevel(Some(c), o)
  {
    var x := LevelWrite(Gain(c.afePl), c.attenuation);
    if c.bias != 0 {
      var y := LevelWrite(Bias(c.afePl), c.bias);
      assert AfeLevels(c) == [x] + [y];
      LastLevelAppends([x], [y], o);
      OneLevel(x, o);
      OneLevel(y, o);
    } else {
      assert AfeLevels(c) == [x];
      OneLevel(x, o);
    }
  }

  lemma OneLevel(x: LevelWrite, o: Output)
    ensures LastLevel([x], o) == if x.output == o then Some(x.value) else None
  {
    assert [x][..0] == [];
  }

  lemma NoLevel(o: Output)
    ensures LastLevel([], o) == None && SlotLevel(None, o) == None
  {}

  /** The last level an apply gives an output is the one in the output's slot. */
  lemma {:induction false} SlotLevelIsLast(slots: seq<Option<AfeRecord>>, o: Output)
    requires AfesApplicable(slots) && AfesInPlace(slots)
    ensures LastLevel(LevelWrites(slots), o)
         == if o.Vbias? || o.afe >= |slots| then None else SlotLevel(slots[o.afe], o)
  {
    hide AfeLevels, LastLevel, SlotLevel;
    NoLevel(o);
    if slots != [] {
      var n := |slots| - 1;
      SlotLevelIsLast(slots[..n], o);
      if slots[n].Some? {
        AfeLevelsOf(slots[n].value, o);
        LastLevelAppends(LevelWrites(slots[..n]), AfeLevels(slots[n].value), o);
      } else {
        LastLevelAppends(LevelWrites(slots[..n]), [], o);
      }
    }
  }

  lemma {:induction false} SlotFile(files: Files, slots: seq<Option<AfeRecord>>, afe: nat)
    requires AfesApplicable(slots) && AfesInPlace(slots) && afe < 5
    ensures ConfiguredFiles(files, slots)[afe]
         == if afe < |slots| && slots[afe].Some? then ConfiguredFile(files[afe], slots[afe].value) else files[afe]
  {
    hide ConfiguredFile;
    if slots != [] {
      SlotFile(files, slots[..|slots| - 1], afe);
    }
  }

  // ---------- the slots of a request ----------

  lemma {:induction false} AfeSlotKept(records: seq<AfeRecord>, i: nat)
    requires AfesPlaced(records) && DistinctAfes(records) && i < |records|
    ensures records[i].afePl < AFE_COUNT && AfeSlotsOf(records)[records[i].afePl] == Some(records[i])
  {
    var n := |records| - 1;
    assert records[i] in records && records[n] in records;
    if i < n {
      AfeSlotKept(records[..n], i);
    }
  }

  lemma {:induction false} AfeSlotsInPlace(records: seq<AfeRecord>)
    requires AfesPlaced(records)
    ensures AfesInPlace(AfeSlotsOf(records))
    ensures forall k :: 0 <= k < 5 && AfeSlotsOf(records)[k].Some? ==> AfeSlotsOf(records)[k].value in records
  {
    if records != [] {
      var n := |records| - 1;
      AfeSlotsInPlace(records[..n]);
      assert records[n] in records;
      assert forall r :: r in records[..n] ==> r in records;
    }
  }

  lemma {:induction false} ChannelSlotKept(records: seq<ChannelRecord>, i: nat)
    requires ChannelsPlaced(records) && DistinctChannels(records) && i < |records|
    ensures records[i].channel < CHANNEL_COUNT && ChannelSlotsOf(records)[records[i].channel] == Some(records[i])
  {
    var n := |records| - 1;
    assert records[i] in records && records[n] in records;
    if i < n {
      ChannelSlotKept(records[..n], i);
    }
  }

  lemma {:induction false} ChannelSlotsFromRecords(records: seq<ChannelRecord>)
    requires ChannelsPlaced(records)
    ensures forall k :: 0 <= k < 40 && ChannelSlotsOf(records)[k].Some? ==>
      ChannelSlotsOf(records)[k].value in records && ChannelSlotsOf(records)[k].value.channel == k
  {
    if records != [] {
      var n := |records| - 1;
      ChannelSlotsFromRecords(records[..n]);
      assert records[n] in records;
      assert forall r :: r in records[..n] ==> r in records;
    }
  }

  function AfeRecords(afes: seq<AfeFrontendConfig>): (rs: seq<AfeRecord>)
    ensures |rs| == |afes| && AfesPlaced(rs)
  {
    var rs := seq(|afes|, i requires 0 <= i < |afes| => RecordOfAfe(afes[i]));
    assert forall i :: 0 <= i < |afes| ==> rs[i].afePl < AFE_COUNT;
    rs
  }

  function ChannelRecords(channels: seq<ChannelFrontendConfig>): (rs: seq<ChannelRecord>)
    ensures |rs| == |channels| && ChannelsPlaced(rs)
  {
    var rs := seq(|channels|, i requires 0 <= i < |channels| => RecordOfChannel(channels[i]));
    assert forall i :: 0 <= i < |channels| ==>
      rs[i].afePl < AFE_COUNT && rs[i].afeChannel < CHANNELS_PER_AFE && rs[i].channel < CHANNEL_COUNT;
    rs
  }

  /** What is staged when every record of the request was accepted. */
  function StagedFor(afes: seq<AfeFrontendConfig>, channels: seq<ChannelFrontendConfig>, biasControl: u16): StagedConfig
    requires |afes| <= RECORD_MAX && |channels| <= RECORD_MAX
  {
    StagedConfig(true, ConfigCounts(|afes|, |channels|, biasControl),
                 AfeSlotsOf(AfeRecords(afes)), ChannelSlotsOf(ChannelRecords(channels)))
  }

  predicate DistinctRequest(afes: seq<AfeFrontendConfig>, channels: seq<ChannelFrontendConfig>) {
    && (forall i, j :: 0 <= i < j < |afes| ==> afes[i].afe != afes[j].afe)
    && (forall i, j :: 0 <= i < j < |channels| ==> channels[i].channel != channels[j].channel)
  }

  predicate RequestInRange(afes: seq<AfeFrontendConfig>) {
    forall a :: a in afes ==>
      a.pga.lpfCutFrequency in {0, 2, 3, 4} && a.lna.clamp <= 3 && a.lna.gain <= 3
  }

  lemma DistinctRecords(afes: seq<AfeFrontendConfig>, channels: seq<ChannelFrontendConfig>)
    ensures DistinctRequest(afes, channels) <==>
            DistinctAfes(AfeRecords(afes)) && DistinctChannels(ChannelRecords(channels))
  {
    var rs, cs := AfeRecords(afes), ChannelRecords(channels);
    forall i, j | 0 <= i < j < |afes|
      ensures afes[i].afe != afes[j].afe <==> rs[i].afePl != rs[j].afePl
    {
      PlIsInjective(afes[i].afe, afes[j].afe);
    }
    forall i, j | 0 <= i < j < |channels|
      ensures channels[i].channel != channels[j].channel <==> cs[i].channel != cs[j].channel
    {
      PlaceIsInjective(channels[i].channel, channels[j].channel);
    }
  }

  /** Among distinct, validated requests, exactly those whose function values
      are in range can be programmed. */
  lemma ProgrammableExactly(afes: seq<AfeFrontendConfig>, channels: seq<ChannelFrontendConfig>, biasControl: u16)
    requires |afes| <= RECORD_MAX && |channels| <= RECORD_MAX
    requires AfeCommand.ConfigureFrontend(afes, channels, biasControl).Validate().Ok?
    requires DistinctRequest(afes, channels)
    ensures Programmable(StagedFor(afes, channels, biasControl)) <==> RequestInRange(afes)
  {
    var rs, cs, s := AfeRecords(afes), ChannelRecords(channels), StagedFor(afes, channels, biasControl);
    DistinctRecords(afes, channels);
    AfeSlotsInPlace(rs);
    ChannelSlotsFromRecords(cs);
    assert ChannelsApplicable(s.channels);
    if RequestInRange(afes) {
      forall k | 0 <= k < 5 && s.afes[k].Some? ensures AfeApplicable(s.afes[k].value) {
        var i :| 0 <= i < |rs| && rs[i] == s.afes[k].value;
        assert afes[i] in afes;
      }
    }
    if AfesApplicable(s.afes) {
      forall a | a in afes ensures FunctionsInRange(RecordOfAfe(a)) {
        var i :| 0 <= i < |afes| && afes[i] == a;
        AfeSlotKept(rs, i);
        assert s.afes[rs[i].afePl].Some?;
      }
    }
  }

  // ---------- what the request asks for ----------

  function PlaceOfChannel(c: ChannelId): (p: Place)
    ensures p.Exists()
  {
    PlaceIsInjective(c, c);
    Place(c.afe.pl, c.afeChannel)
  }

  function Wanted(c: ChannelFrontendConfig, q: Quantity): u16 {
    match q case Trim => c.trim case Offset => c.offset
  }

  /** Each requested channel has its value cached, addressed and without the
      gain bit: the gain of a channel record is never used. No other channel
      changes. */
  ghost predicate ChannelsCached(d: PairDac, t: PairDac, channels: seq<ChannelFrontendConfig>, q: Quantity) {
    && (forall i :: 0 <= i < |channels| ==>
          var p := PlaceOfChannel(channels[i].channel);
          && t.Half(p) == DacTrimOffsetHalf(p.channel, Wanted(channels[i], q), false)
          && t.Value(p) == Wanted(channels[i], q))
    && (forall p: Place :: p.Exists() && (forall c :: c in channels ==> PlaceOfChannel(c.channel) != p) ==>
          t.Half(p) == d.Half(p))
  }

  /** What the request asks of an AFE, channel by channel. */
  function AskedOf(channels: seq<ChannelFrontendConfig>, afe: AfeId, q: Quantity): Asked {
    if channels == [] then NOTHING
    else
      var before, last := AskedOf(channels[..|channels| - 1], afe, q), channels[|channels| - 1];
      if last.channel.afe == afe then before[last.channel.afeChannel := Some(Wanted(last, q))] else before
  }

  /** Every DAC of every AFE, requested or not, ends where the writes lead it. */
  ghost predicate CodesHold(d: PairDac, t: PairDac, channels: seq<ChannelFrontendConfig>, q: Quantity) {
    forall afe: AfeId :: PlIsInjective(afe, afe); Takes(d, t, afe.pl, AskedOf(channels, afe, q))
  }

  /** Caches and DACs of every channel. The cached halves carry their addresses
      in every state of the backend. */
  ghost predicate ChannelsHold(d: PairDac, t: PairDac, channels: seq<ChannelFrontendConfig>, q: Quantity) {
    ChannelsCached(d, t, channels, q) && (SaneHalves(d.halves) ==> CodesHold(d, t, channels, q))
  }

  /** An output has a level in the cache and on its pin. */
  predicate Driven(t: DacState, o: Output, value: u16)
    requires IsOutput(o)
  {
    t.levels.Level(o) == value && Route(o) in t.outputs && t.outputs[Route(o)] == value
  }

  predicate SameOutput(s: DacState, t: DacState, o: Output)
    requires IsOutput(o)
  {
    && t.levels.Level(o) == s.levels.Level(o)
    && (Route(o) in t.outputs <==> Route(o) in s.outputs)
    && (Route(o) in s.outputs ==> t.outputs[Route(o)] == s.outputs[Route(o)])
  }

  /** Attenuations, nonzero biases and VBIAS are driven as requested; a zero
      bias means leave it alone, and so is every AFE not named. */
  ghost predicate LevelsHold(s: DacState, t: DacState, afes: seq<AfeFrontendConfig>, biasControl: u16) {
    && Driven(t, Vbias, biasControl)
    && (forall a :: a in afes ==>
          && a.afe.pl < 5 && Driven(t, Gain(a.afe.pl), a.attenuation)
          && if a.bias != 0 then Driven(t, Bias(a.afe.pl), a.bias) else SameOutput(s, t, Bias(a.afe.pl)))
    && (forall k :: 0 <= k < 5 && (forall a :: a in afes ==> a.afe.pl != k) ==>
          SameOutput(s, t, Gain(k)) && SameOutput(s, t, Bias(k)))
  }

  predicate BitIs(register: u16, weight: u16, on: bool)
    requires weight > 0
  {
    register / weight % 2 == if on then 1 else 0
  }

  /** The registers of an AFE hold the settings of the request, bit by bit: the
      data rate, three ADC settings, filter, integrator, gain and clamp level of
      the PGA, no termination, and clamp, integrator and gain of the LNA. */
  predicate SettingsHold(file: RegisterFile, a: AfeFrontendConfig) {
    && file[3] / 0x2000 % 4 == 1
    && BitIs(file[4], 2, a.adc.resolution)
    && BitIs(file[4], 8, a.adc.outputFormat)
    && BitIs(file[4], 16, a.adc.msbFirst)
    && file[51] / 2 % 8 == a.pga.lpfCutFrequency
    && BitIs(file[51], 16, a.pga.integratorDisable)
    && file[51] / 32 % 8 == 2
    && BitIs(file[51], 0x2000, a.pga.gain)
    && BitIs(file[52], 0x100, false)
    && file[52] / 0x200 % 4 == a.lna.clamp
    && BitIs(file[52], 0x1000, a.lna.integratorDisable)
    && file[52] / 0x2000 % 4 == a.lna.gain
  }

  /** The registers hold the requested settings; fields disjoint from those, and
      AFEs not named, hold what the reset left. */
  ghost predicate FunctionsHold(before: Files, after: Files, afes: seq<AfeFrontendConfig>) {
    && (forall a :: a in afes ==>
          a.afe.pl < 5 && SettingsHold(after[a.afe.pl], a) && OthersKept(before[a.afe.pl], after[a.afe.pl]))
    && (forall k :: 0 <= k < 5 && (forall a :: a in afes ==> a.afe.pl != k) ==> after[k] == before[k])
  }

  ghost predicate OthersKept(before: RegisterFile, after: RegisterFile) {
    forall f: AfeBitField :: WellFormed(f) && f.register < 0x100 && Untouched(f) ==>
      ExtractBits(after[f.register], f) == ExtractBits(before[f.register], f)
  }

  /** A field that shares no bit with the twelve. */
  predicate Untouched(f: AfeBitField) {
    forall i :: 0 <= i < 12 ==> Disjoint(FrontendField(i), f)
  }

  /** `w` is `v` with a ConfigureFrontend request carried out. */
  ghost predicate RequestHolds(v: FrontendView, w: FrontendView, afes: seq<AfeFrontendConfig>,
                               channels: seq<ChannelFrontendConfig>, biasControl: u16) {
    && ChannelsHold(v.trim, w.trim, channels, Trim)
    && ChannelsHold(v.offset, w.offset, channels, Offset)
    && LevelsHold(v.dac, w.dac, afes, biasControl)
    && FunctionsHold(v.afterReset, w.files, afes)
    && w.vbiasEnabled && w.lines == Lines(false, true, 1)
    && w.timing == v.timing && w.afterReset == v.afterReset
  }

  // ---------- applying the staged request carries it out ----------

  lemma {:induction false} HalfIsLast(s: PairDac, ws: seq<PairWrite>, p: Place)
    requires p.Exists() && forall w :: w in ws ==> w.place.Exists() && w.value <= DAC_12BIT_MAX && !w.gain
    ensures s.Run(ws).Half(p)
         == if LastSet(ws, p).Some? then DacTrimOffsetHalf(p.channel, LastSet(ws, p).value, false) else s.Half(p)
    decreases |ws|
  {
    if ws != [] {
      HalfIsLast(s, ws[..|ws| - 1], p);
    }
  }

  lemma {:induction false} ChannelWritesWithoutGain(slots: seq<Option<ChannelRecord>>, q: Quantity)
    requires ChannelsApplicable(slots)
    ensures forall w :: w in ChannelWrites(slots, q) ==> !w.gain
  {
    if slots != [] {
      ChannelWritesWithoutGain(slots[..|slots| - 1], q);
    }
  }

  /** Slots filled from a request: by a record of a requested channel, its own. */
  lemma RequestedSlots(channels: seq<ChannelFrontendConfig>)
    ensures var slots := ChannelSlotsOf(ChannelRecords(channels));
            && SlotsPlaced(slots)
            && forall k :: 0 <= k < 40 && slots[k].Some? ==>
                 exists c :: c in channels && slots[k].value == RecordOfChannel(c)
  {
    var rs := ChannelRecords(channels);
    var slots := ChannelSlotsOf(rs);
    ChannelSlotsFromRecords(rs);
    forall k | 0 <= k < 40 && slots[k].Some?
      ensures exists c :: c in channels && slots[k].value == RecordOfChannel(c)
    {
      var i :| 0 <= i < |rs| && rs[i] == slots[k].value;
      assert channels[i] in channels;
    }
    forall i, j | 0 <= i < j < 40 && slots[i].Some? && slots[j].Some?
      ensures PlaceOf(slots[i].value) != PlaceOf(slots[j].value)
    {
      var c :| c in channels && slots[i].value == RecordOfChannel(c);
      var d :| d in channels && slots[j].value == RecordOfChannel(d);
      PlaceIsInjective(c.channel, d.channel);
    }
  }

  lemma ChannelsCachedAsAsked(d: PairDac, channels: seq<ChannelFrontendConfig>, q: Quantity)
    requires DistinctChannels(ChannelRecords(channels))
    requires ChannelsApplicable(ChannelSlotsOf(ChannelRecords(channels)))
    ensures ChannelsCached(d, d.Run(ChannelWrites(ChannelSlotsOf(ChannelRecords(channels)), q)), channels, q)
  {
    var rs := ChannelRecords(channels);
    var slots := ChannelSlotsOf(rs);
    var ws := ChannelWrites(slots, q);
    RequestedSlots(channels);
    ChannelWritesWithoutGain(slots, q);
    forall i | 0 <= i < |channels|
      ensures var p := PlaceOfChannel(channels[i].channel);
              && d.Run(ws).Half(p) == DacTrimOffsetHalf(p.channel, Wanted(channels[i], q), false)
              && d.Run(ws).Value(p) == Wanted(channels[i], q)
    {
      var p := PlaceOfChannel(channels[i].channel);
      ChannelSlotKept(rs, i);
      SlotIsSet(slots, q, rs[i].channel);
      HalfIsLast(d, ws, p);
      HalfFields(p.channel, Wanted(channels[i], q), false);
    }
    forall p: Place | p.Exists() && (forall c :: c in channels ==> PlaceOfChannel(c.channel) != p)
      ensures d.Run(ws).Half(p) == d.Half(p)
    {
      forall k | 0 <= k < 40 && slots[k].Some? ensures PlaceOf(slots[k].value) != p {
        var c :| c in channels && slots[k].value == RecordOfChannel(c);
        assert PlaceOfChannel(c.channel) != p;
      }
      OtherPlaceNotSet(slots, q, p);
      HalfIsLast(d, ws, p);
    }
  }

  lemma AfeSlotEmpty(afes: seq<AfeFrontendConfig>, k: nat)
    requires k < 5 && forall a :: a in afes ==> a.afe.pl != k
    ensures AfeSlotsOf(AfeRecords(afes))[k].None?
  {
    var rs := AfeRecords(afes);
    AfeSlotFilled(rs, k);
    forall i | 0 <= i < |rs| ensures rs[i].afePl != k {
      assert afes[i] in afes;
    }
  }

  lemma AfeSlotIs(afes: seq<AfeFrontendConfig>, a: AfeFrontendConfig)
    requires DistinctAfes(AfeRecords(afes)) && a in afes
    ensures a.afe.pl < 5 && AfeSlotsOf(AfeRecords(afes))[a.afe.pl] == Some(RecordOfAfe(a))
  {
    var i :| 0 <= i < |afes| && afes[i] == a;
    AfeSlotKept(AfeRecords(afes), i);
  }

  /** What an output is driven to, from its slot. */
  lemma OutputCarriedOut(s: DacState, slots: AfeSlots, o: Output)
    requires AfesApplicable(slots) && AfesInPlace(slots) && IsOutput(o)
    ensures var t := s.Run(LevelWrites(slots));
            var wanted := if o.Vbias? then None else SlotLevel(slots[o.afe], o);
            if wanted.Some? then Driven(t, o, wanted.value) else SameOutput(s, t, o)
  {
    SlotLevelIsLast(slots, o);
    PinsFollowLevels(s, LevelWrites(slots), o);
  }

  lemma VbiasStep(s: DacState, biasControl: u16, k: nat)
    requires biasControl <= DAC_12BIT_MAX && k < 5
    ensures var t := s.Step(LevelWrite(Vbias, biasControl));
            Driven(t, Vbias, biasControl) && SameOutput(s, t, Gain(k)) && SameOutput(s, t, Bias(k))
  {
    RoutesAreInjective(Vbias, Gain(k));
    RoutesAreInjective(Vbias, Bias(k));
  }

  lemma LevelsCarriedOut(s: DacState, afes: seq<AfeFrontendConfig>, biasControl: u16)
    requires DistinctAfes(AfeRecords(afes)) && biasControl <= DAC_12BIT_MAX
    requires AfesApplicable(AfeSlotsOf(AfeRecords(afes)))
    ensures LevelsHold(s, s.Step(LevelWrite(Vbias, biasControl)).Run(LevelWrites(AfeSlotsOf(AfeRecords(afes)))),
                       afes, biasControl)
  {
    hide DacState.Step, DacState.Run, LevelWrites, AfeSlotsOf, RecordOfAfe;
    var slots := AfeSlotsOf(AfeRecords(afes));
    var r := s.Step(LevelWrite(Vbias, biasControl));
    var t := r.Run(LevelWrites(slots));
    AfeSlotsInPlace(AfeRecords(afes));
    VbiasStep(s, biasControl, 0);
    OutputCarriedOut(r, slots, Vbias);
    forall a | a in afes
      ensures a.afe.pl < 5 && Driven(t, Gain(a.afe.pl), a.attenuation)
      ensures if a.bias != 0 then Driven(t, Bias(a.afe.pl), a.bias) else SameOutput(s, t, Bias(a.afe.pl))
    {
      AfeSlotIs(afes, a);
      RecordLevels(a);
      VbiasStep(s, biasControl, a.afe.pl);
      OutputCarriedOut(r, slots, Gain(a.afe.pl));
      OutputCarriedOut(r, slots, Bias(a.afe.pl));
    }
    forall k | 0 <= k < 5 && (forall a :: a in afes ==> a.afe.pl != k)
      ensures SameOutput(s, t, Gain(k)) && SameOutput(s, t, Bias(k))
    {
      AfeSlotEmpty(afes, k);
      VbiasStep(s, biasControl, k);
      OutputCarriedOut(r, slots, Gain(k));
      OutputCarriedOut(r, slots, Bias(k));
    }
  }

  lemma RecordLevels(a: AfeFrontendConfig)
    ensures RecordOfAfe(a).attenuation == a.attenuation && RecordOfAfe(a).bias == a.bias
  {}

  /** The fields read back, as bits. */
  lemma FieldsAreSettings(file: RegisterFile, a: AfeFrontendConfig)
    requires forall i :: 0 <= i < 12 ==>
      ExtractBits(file[FrontendField(i).register], FrontendField(i)) == Ok(FrontendValue(RecordOfAfe(a), i))
    ensures SettingsHold(file, a)
  {
    hide ExtractBits;
    var c := RecordOfAfe(a);
    forall i | 0 <= i < 12
      ensures var f := FrontendField(i);
              file[f.register] / Pow2(f.lsb) % Pow2(Width(f)) == FrontendValue(c, i)
    {
      ExtractedNumber(file[FrontendField(i).register], FrontendField(i));
    }
    SettingPowers();
    hide Pow2;
    assert FrontendField(0) == AfeBitField(3, 14, 13) && FrontendField(1) == AfeBitField(4, 1, 1);
    assert FrontendField(2) == AfeBitField(4, 3, 3) && FrontendField(3) == AfeBitField(4, 4, 4);
    assert FrontendField(4) == AfeBitField(51, 3, 1) && FrontendField(5) == AfeBitField(51, 4, 4);
    assert FrontendField(6) == AfeBitField(51, 13, 13) && FrontendField(7) == AfeBitField(51, 7, 5);
    assert FrontendField(8) == AfeBitField(52, 8, 8) && FrontendField(9) == AfeBitField(52, 10, 9);
    assert FrontendField(10) == AfeBitField(52, 14, 13) && FrontendField(11) == AfeBitField(52, 12, 12);
  }

  lemma SettingPowers()
    ensures Pow2(1) == 2 && Pow2(2) == 4 && Pow2(3) == 8 && Pow2(4) == 16 && Pow2(5) == 32
    ensures Pow2(8) == 0x100 && Pow2(9) == 0x200 && Pow2(12) == 0x1000 && Pow2(13) == 0x2000
  {
    SmallPowers();
    assert Pow2(9) == 0x200;
  }

  lemma FileCarriedOut(file: RegisterFile, a: AfeFrontendConfig)
    requires FunctionsInRange(RecordOfAfe(a))
    ensures SettingsHold(ConfiguredFile(file, RecordOfAfe(a)), a)
    ensures OthersKept(file, ConfiguredFile(file, RecordOfAfe(a)))
  {
    var c := RecordOfAfe(a);
    var ws := FrontendFields(c);
    FrontendWritesAllowed(c);
    hide FrontendName, FrontendValue, WriteFields, ExtractBits, FieldOf, Writable;
    forall i | 0 <= i < 12
      ensures ExtractBits(ConfiguredFile(file, c)[FrontendField(i).register], FrontendField(i))
           == Ok(FrontendValue(c, i))
    {
      assert forall j :: 0 <= j < 12 ==> FieldOf(ws[j]).register != 0;
      WrittenFieldsReadBack(file, ws, i);
      assert ws[i] == FrontendWrite(c, i);
    }
    FieldsAreSettings(ConfiguredFile(file, c), a);
    forall f: AfeBitField | WellFormed(f) && f.register < 0x100 && Untouched(f)
      ensures ExtractBits(ConfiguredFile(file, c)[f.register], f) == ExtractBits(file[f.register], f)
    {
      forall w | w in ws ensures Disjoint(FieldOf(w), f) {
        var i :| 0 <= i < 12 && ws[i] == w;
        assert FieldOf(ws[i]) == FrontendField(i);
      }
      OtherFieldsKept(file, ws, f);
    }
  }

  lemma FunctionsCarriedOut(files: Files, afes: seq<AfeFrontendConfig>)
    requires DistinctAfes(AfeRecords(afes)) && AfesApplicable(AfeSlotsOf(AfeRecords(afes)))
    ensures FunctionsHold(files, ConfiguredFiles(files, AfeSlotsOf(AfeRecords(afes))), afes)
  {
    hide ConfiguredFile, ConfiguredFiles, SettingsHold, OthersKept, AfeSlotsOf, RecordOfAfe;
    var slots := AfeSlotsOf(AfeRecords(afes));
    AfeSlotsInPlace(AfeRecords(afes));
    forall a | a in afes
      ensures a.afe.pl < 5
      ensures SettingsHold(ConfiguredFiles(files, slots)[a.afe.pl], a)
      ensures OthersKept(files[a.afe.pl], ConfiguredFiles(files, slots)[a.afe.pl])
    {
      AfeSlotIs(afes, a);
      assert AfeApplicable(slots[a.afe.pl].value);
      SlotFile(files, slots, a.afe.pl);
      FileCarriedOut(files[a.afe.pl], a);
    }
    forall k | 0 <= k < 5 && (forall a :: a in afes ==> a.afe.pl != k)
      ensures ConfiguredFiles(files, slots)[k] == files[k]
    {
      AfeSlotEmpty(afes, k);
      SlotFile(files, slots, k);
    }
  }

  // ---------- the DACs of every AFE ----------

  /** The slots of one AFE hold what is asked of its channels, in order, and it
      has no others. */
  predicate SlotsAsk(slots: ChannelSlots, board: nat, pl: nat, asked: Asked, q: Quantity)
    requires board < 5
  {
    && (forall c :: 0 <= c < 8 ==> SlotAsks(slots, 8 * board + c, Place(pl, c), asked[c], q))
    && (forall k :: 0 <= k < 40 && slots[k].Some? && !(8 * board <= k < 8 * board + 8) ==>
          slots[k].value.afePl != pl)
  }

  predicate SlotAsks(slots: ChannelSlots, k: nat, p: Place, value: Option<u16>, q: Quantity)
    requires k < 40
  {
    && (slots[k].Some? <==> value.Some?)
    && (slots[k].Some? ==> PlaceOf(slots[k].value) == p && value == Some(q.Of(slots[k].value)))
  }

  function Clamped(k: int, low: int): (r: nat)
    ensures r <= 8
  {
    if k <= low then 0 else if k >= low + 8 then 8 else k - low
  }

  lemma NothingTaken(d: PairDac, slots: ChannelSlots, q: Quantity)
    ensures d.Run(ChannelWrites(slots[..0], q)) == d
  {}

  /** The writes of the first `k` slots, as one AFE sees them. */
  lemma {:induction false} SlotsTake(d: PairDac, slots: ChannelSlots, q: Quantity, board: nat, pl: nat, asked: Asked,
                                     k: nat)
    requires ChannelsApplicable(slots) && SaneHalves(d.halves) && board < 5 && pl < 5 && k <= 40
    requires SlotsAsk(slots, board, pl, asked, q)
    ensures ChannelsApplicable(slots[..k])
    ensures var t := d.Run(ChannelWrites(slots[..k], q));
            SaneHalves(t.halves) && Takes(d, t, pl, FirstAsked(asked, Clamped(k, 8 * board)))
  {
    hide SaneHalves, Takes, FirstAsked, PairDac.Step, PairDac.Run, ChannelWrites;
    if k == 0 {
      NothingTaken(d, slots, q);
      NothingAsked(d, pl, asked);
    } else {
      SlotsTake(d, slots, q, board, pl, asked, k - 1);
      NextChannel(d, q, slots, k - 1);
      SlotTaken(d, d.Run(ChannelWrites(slots[..k - 1], q)), slots, q, board, pl, asked, k - 1);
    }
  }

  lemma SlotTaken(d: PairDac, s: PairDac, slots: ChannelSlots, q: Quantity, board: nat, pl: nat, asked: Asked, k: nat)
    requires ChannelsApplicable(slots) && board < 5 && pl < 5 && k < 40
    requires SlotsAsk(slots, board, pl, asked, q) && SaneHalves(s.halves)
    requires Takes(d, s, pl, FirstAsked(asked, Clamped(k, 8 * board)))
    ensures var t := if slots[k].Some? then s.Step(ChannelWrite(slots[k].value, q)) else s;
            SaneHalves(t.halves) && Takes(d, t, pl, FirstAsked(asked, Clamped(k + 1, 8 * board)))
  {
    hide SaneHalves, Takes, FirstAsked, PairDac.Step;
    var m := Clamped(k, 8 * board);
    var here := 8 * board <= k < 8 * board + 8;
    if here {
      assert SlotAsks(slots, 8 * board + m, Place(pl, m), asked[m], q);
    }
    if slots[k].Some? {
      var w := ChannelWrite(slots[k].value, q);
      StepStaysSane(s, w);
      if here {
        AskedInRange(slots, board, pl, asked, q);
        AskedStep(d, s, pl, asked, m, w);
      } else {
        OtherStep(d, s, pl, FirstAsked(asked, m), w);
      }
    } else if here {
      NotAsked(asked, m);
    }
  }

  lemma StepStaysSane(s: PairDac, w: PairWrite)
    requires w.place.Exists() && w.value <= DAC_12BIT_MAX && SaneHalves(s.halves)
    ensures SaneHalves(s.Step(w).halves)
  {
    hide SaneHalves, PairDac.Cached;
    CacheStaysSane(s, w);
  }

  lemma AskedInRange(slots: ChannelSlots, board: nat, pl: nat, asked: Asked, q: Quantity)
    requires ChannelsApplicable(slots) && board < 5 && SlotsAsk(slots, board, pl, asked, q)
    ensures AllInRange(asked)
  {
    forall c | 0 <= c < 8 && asked[c].Some? ensures asked[c].value <= DAC_12BIT_MAX {
      assert SlotAsks(slots, 8 * board + c, Place(pl, c), asked[c], q);
    }
  }

  lemma ChannelNumber(c: ChannelId)
    ensures c.afe.board < 5 && c.afe.pl < 5 && c.afeChannel < 8 && c.channel == 8 * c.afe.board + c.afeChannel
  {}

  lemma AskOneMore(slots: ChannelSlots, last: ChannelFrontendConfig, afe: AfeId, asked: Asked, q: Quantity)
    requires SlotsAsk(slots, afe.board, afe.pl, asked, q)
    ensures SlotsAsk(slots[last.channel.channel := Some(RecordOfChannel(last))], afe.board, afe.pl,
                     if last.channel.afe == afe then asked[last.channel.afeChannel := Some(Wanted(last, q))] else asked,
                     q)
  {
    var c := last.channel;
    var after := slots[c.channel := Some(RecordOfChannel(last))];
    var more := if c.afe == afe then asked[c.afeChannel := Some(Wanted(last, q))] else asked;
    ChannelNumber(c);
    PlIsInjective(c.afe, afe);
    forall k | 0 <= k < 8 ensures SlotAsks(after, 8 * afe.board + k, Place(afe.pl, k), more[k], q) {
      assert SlotAsks(slots, 8 * afe.board + k, Place(afe.pl, k), asked[k], q);
    }
  }

  lemma {:induction false} RequestAsks(channels: seq<ChannelFrontendConfig>, afe: AfeId, q: Quantity)
    ensures SlotsAsk(ChannelSlotsOf(ChannelRecords(channels)), afe.board, afe.pl, AskedOf(channels, afe, q), q)
  {
    hide *;
    if channels == [] {
      NothingRequested(afe, q);
    } else {
      var n := |channels| - 1;
      RequestAsks(channels[..n], afe, q);
      RequestGrows(channels, afe, q);
      AskOneMore(ChannelSlotsOf(ChannelRecords(channels[..n])), channels[n], afe, AskedOf(channels[..n], afe, q), q);
    }
  }

  lemma NothingRequested(afe: AfeId, q: Quantity)
    ensures SlotsAsk(ChannelSlotsOf(ChannelRecords([])), afe.board, afe.pl, AskedOf([], afe, q), q)
  {
    hide SlotAsks;
    NoChannels();
    forall c | 0 <= c < 8 ensures SlotAsks(NO_CHANNELS, 8 * afe.board + c, Place(afe.pl, c), None, q) {
      EmptySlotAsks(NO_CHANNELS, 8 * afe.board + c, Place(afe.pl, c), q);
    }
  }

  lemma NoChannels()
    ensures forall k :: 0 <= k < 40 ==> NO_CHANNELS[k].None?
  {
    assert forall k :: 0 <= k < 8 ==> EIGHT_EMPTY[k].None?;
  }

  lemma EmptySlotAsks(slots: ChannelSlots, k: nat, p: Place, q: Quantity)
    requires k < 40 && slots[k].None?
    ensures SlotAsks(slots, k, p, None, q)
  {}

  lemma RequestGrows(channels: seq<ChannelFrontendConfig>, afe: AfeId, q: Quantity)
    requires channels != []
    ensures var n := |channels| - 1;
            var last, asked := channels[n], AskedOf(channels[..n], afe, q);
            && ChannelSlotsOf(ChannelRecords(channels))
            == ChannelSlotsOf(ChannelRecords(channels[..n]))[last.channel.channel := Some(RecordOfChannel(last))]
            && AskedOf(channels, afe, q)
            == if last.channel.afe == afe then asked[last.channel.afeChannel := Some(Wanted(last, q))] else asked
  {
    var n := |channels| - 1;
    assert ChannelRecords(channels)[..n] == ChannelRecords(channels[..n]);
  }

  lemma CodesCarriedOut(d: PairDac, channels: seq<ChannelFrontendConfig>, q: Quantity)
    requires ChannelsApplicable(ChannelSlotsOf(ChannelRecords(channels))) && SaneHalves(d.halves)
    ensures CodesHold(d, d.Run(ChannelWrites(ChannelSlotsOf(ChannelRecords(channels)), q)), channels, q)
  {
    hide ChannelWrites, ChannelSlotsOf, PairDac.Run, SaneHalves, AskedOf, SlotsAsk, FirstAsked, Takes;
    var slots := ChannelSlotsOf(ChannelRecords(channels));
    assert slots[..40] == slots;
    forall afe: AfeId
      ensures afe.pl < 5 && Takes(d, d.Run(ChannelWrites(slots, q)), afe.pl, AskedOf(channels, afe, q))
    {
      PlIsInjective(afe, afe);
      RequestAsks(channels, afe, q);
      SlotsTake(d, slots, q, afe.board, afe.pl, AskedOf(channels, afe, q), 40);
      AllAsked(AskedOf(channels, afe, q));
    }
  }

  lemma ChannelsCarriedOut(d: PairDac, channels: seq<ChannelFrontendConfig>, q: Quantity)
    requires DistinctChannels(ChannelRecords(channels))
    requires ChannelsApplicable(ChannelSlotsOf(ChannelRecords(channels)))
    ensures ChannelsHold(d, d.Run(ChannelWrites(ChannelSlotsOf(ChannelRecords(channels)), q)), channels, q)
  {
    hide ChannelsCached, CodesHold, ChannelWrites, ChannelSlotsOf, PairDac.Run, DistinctChannels, SaneHalves;
    ChannelsCachedAsAsked(d, channels, q);
    if SaneHalves(d.halves) {
      CodesCarriedOut(d, channels, q);
    }
  }

  lemma {:induction false} AskedLast(channels: seq<ChannelFrontendConfig>, afe: AfeId, q: Quantity, i: nat)
    requires i < |channels| && forall j, k :: 0 <= j < k < |channels| ==> channels[j].channel != channels[k].channel
    requires channels[i].channel.afe == afe
    ensures AskedOf(channels, afe, q)[channels[i].channel.afeChannel] == Some(Wanted(channels[i], q))
  {
    var n := |channels| - 1;
    PlaceIsInjective(channels[i].channel, channels[n].channel);
    if i < n {
      AskedLast(channels[..n], afe, q, i);
    }
  }

  /** The exact condition for the DAC of a requested channel to end with the
      value: it fails only for channel 0 of an AFE, when a channel 5, 6 or 7 of
      it is requested whose companion is neither requested nor was ever set. */
  lemma RequestedCodeExactly(d: PairDac, t: PairDac, channels: seq<ChannelFrontendConfig>, q: Quantity, i: nat)
    requires i < |channels| && forall j, k :: 0 <= j < k < |channels| ==> channels[j].channel != channels[k].channel
    requires CodesHold(d, t, channels, q)
    ensures var c := channels[i].channel;
            c.afe.pl < 5 &&
            (t.Code(PlaceOfChannel(c)) == Wanted(channels[i], q) <==>
               Wanted(channels[i], q) == 0 || c.afeChannel != 0
               || forall k :: 4 < k < 8 ==> !Strays(d, c.afe.pl, AskedOf(channels, c.afe, q), k))
  {
    var c := channels[i].channel;
    PlaceIsInjective(c, c);
    AskedLast(channels, c.afe, q, i);
    hide AskedOf, Strays;
    assert Takes(d, t, c.afe.pl, AskedOf(channels, c.afe, q));
  }

  predicate Requested(channels: seq<ChannelFrontendConfig>, afe: AfeId, c: nat) {
    exists r :: r in channels && r.channel.afe == afe && r.channel.afeChannel == c
  }

  predicate AllRequested(channels: seq<ChannelFrontendConfig>, afe: AfeId) {
    forall c :: 0 <= c < 8 ==> Requested(channels, afe, c)
  }

  lemma {:induction false} AskedExactly(channels: seq<ChannelFrontendConfig>, afe: AfeId, q: Quantity, c: nat)
    requires c < 8
    ensures AskedOf(channels, afe, q)[c].Some? <==> Requested(channels, afe, c)
  {
    if channels != [] {
      var n := |channels| - 1;
      assert channels == channels[..n] + [channels[n]];
      AskedExactly(channels[..n], afe, q, c);
    }
  }

  /** So when all eight channels of an AFE are requested each of its DACs ends
      with the requested value, whatever it held before. */
  lemma WholeAfeConfigured(d: PairDac, t: PairDac, channels: seq<ChannelFrontendConfig>, q: Quantity, i: nat)
    requires i < |channels| && forall j, k :: 0 <= j < k < |channels| ==> channels[j].channel != channels[k].channel
    requires CodesHold(d, t, channels, q) && AllRequested(channels, channels[i].channel.afe)
    ensures t.Code(PlaceOfChannel(channels[i].channel)) == Wanted(channels[i], q)
  {
    hide AskedOf, CodesHold, AllRequested;
    var afe := channels[i].channel.afe;
    RequestedCodeExactly(d, t, channels, q, i);
    forall k | 4 < k < 8 ensures !Strays(d, afe.pl, AskedOf(channels, afe, q), k) {
      AskedExactly(channels, afe, q, k - 4);
      AllRequestedAt(channels, afe, k - 4);
    }
  }

  lemma AllRequestedAt(channels: seq<ChannelFrontendConfig>, afe: AfeId, c: nat)
    requires AllRequested(channels, afe) && c < 8
    ensures Requested(channels, afe, c)
  {}

  /** Applying what is staged for a request of distinct AFEs and channels
      carries the request out and changes nothing else. */
  lemma ConfigureMeaning(v: FrontendView, afes: seq<AfeFrontendConfig>, channels: seq<ChannelFrontendConfig>,
                         biasControl: u16)
    requires |afes| <= RECORD_MAX && |channels| <= RECORD_MAX && DistinctRequest(afes, channels)
    requires Programmable(StagedFor(afes, channels, biasControl))
    ensures RequestHolds(v, AfterApply(v, StagedFor(afes, channels, biasControl)), afes, channels, biasControl)
  {
    hide ChannelsHold, LevelsHold, FunctionsHold, AfeSlotsOf, ChannelSlotsOf, ChannelWrites, LevelWrites;
    hide ConfiguredFiles;
    DistinctRecords(afes, channels);
    ChannelsCarriedOut(v.trim, channels, Trim);
    ChannelsCarriedOut(v.offset, channels, Offset);
    LevelsCarriedOut(v.dac, afes, biasControl);
    FunctionsCarriedOut(v.afterReset, afes);
  }
}
