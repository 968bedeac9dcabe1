/** The gain, bias and VBIAS outputs: their cached levels and the pins of the
    three DAC chips (crates/daphne-sc-rpu/src/mmio.rs, lines 329-340 and
    557-575). */
module DacOutputs {
  import opened Words
  import opened Afe
  import opened AfeHw
  import opened Board

  /** Every latched word has already been driven: no transaction was cut off
      between the latch and the go bit. */
  ghost predicate Settled(latches: Latches, outputs: Outputs) {
    forall chip :: chip in latches ==>
      Pin(chip, latches[chip]) in outputs && outputs[Pin(chip, latches[chip])] == latches[chip] % 0x1000
  }

  lemma WordFields(route: DacRoute, value: u16)
    requires route.channel < 4 && value <= DAC_12BIT_MAX
    ensures Pin(route.chip, DacGainBiasWord(route, value)) == route
    ensures DacGainBiasWord(route, value) % 0x1000 == value
  {}

  /** Every transfer settles the chips, whatever was latched before. */
  lemma TransferSettles(latches: Latches, outputs: Outputs)
    ensures Settled(latches, Transfer(latches, outputs))
  {
    var first := TransferChip(latches, outputs, U50);
    var second := TransferChip(latches, first, U53);
    assert Transfer(latches, outputs) == TransferChip(latches, second, U5);
    forall chip | chip in latches
      ensures Pin(chip, latches[chip]) in Transfer(latches, outputs)
      ensures Transfer(latches, outputs)[Pin(chip, latches[chip])] == latches[chip] % 0x1000
    {
      match chip
      case U50 =>
      case U53 =>
      case U5 =>
    }
  }

  /** The pins once the words latched by the other chips are driven. */
  function OthersDriven(latches: Latches, outputs: Outputs, chip: DacChip): Outputs {
    Transfer(latches - {chip}, outputs)
  }

  /** Latching a word and raising the go bit moves the named pin, drives what
      the other chips have latched, and settles all chips. */
  lemma TransferDrives(latches: Latches, outputs: Outputs, route: DacRoute, value: u16)
    requires route.channel < 4 && value <= DAC_12BIT_MAX
    ensures var latched := latches[route.chip := DacGainBiasWord(route, value)];
            && Transfer(latched, outputs) == OthersDriven(latches, outputs, route.chip)[route := value]
            && Settled(latched, Transfer(latched, outputs))
  {
    hide DacGainBiasWord, Settled;
    WordFields(route, value);
    var latched, rest := latches[route.chip := DacGainBiasWord(route, value)], latches - {route.chip};
    TransferSettles(latched, outputs);
    match route.chip {
      case U50 =>
        var x := TransferChip(rest, outputs, U53);
        assert TransferChip(latched, outputs[route := value], U53) == x[route := value];
        assert TransferChip(latched, x[route := value], U5) == TransferChip(rest, x, U5)[route := value];
      case U53 =>
        var x := TransferChip(rest, outputs, U50);
        assert TransferChip(latched, x[route := value], U5) == TransferChip(rest, x, U5)[route := value];
      case U5 =>
    }
  }

  lemma OthersSettled(latches: Latches, outputs: Outputs, chip: DacChip)
    requires Settled(latches, outputs)
    ensures OthersDriven(latches, outputs, chip) == outputs
  {
    forall other ensures TransferChip(latches - {chip}, outputs, other) == outputs {}
  }

  /** With the chips settled, latching a word and raising the go bit moves the
      named pin and no other, and leaves the chips settled. */
  lemma LatchThenTransfer(latches: Latches, outputs: Outputs, route: DacRoute, value: u16)
    requires route.channel < 4 && value <= DAC_12BIT_MAX && Settled(latches, outputs)
    ensures var latched := latches[route.chip := DacGainBiasWord(route, value)];
            && Transfer(latched, outputs) == outputs[route := value]
            && Settled(latched, outputs[route := value])
  {
    hide Settled, Transfer, OthersDriven, DacGainBiasWord;
    TransferDrives(latches, outputs, route, value);
    OthersSettled(latches, outputs, route.chip);
  }

  /** A word that was latched but not transferred is stranded: the next
      transfer drives it too, exactly when it is for another chip. On the same
      chip the next word replaces it. */
  lemma StrandedWordDriven(latches: Latches, outputs: Outputs, stranded: DacRoute, value: u16,
                           next: DacRoute, nextValue: u16)
    requires stranded.channel < 4 && value <= DAC_12BIT_MAX && next.channel < 4 && nextValue <= DAC_12BIT_MAX
    requires Settled(latches, outputs)
    ensures var left := latches[stranded.chip := DacGainBiasWord(stranded, value)];
            var latched := left[next.chip := DacGainBiasWord(next, nextValue)];
            && Transfer(latched, outputs)
            == (if stranded.chip == next.chip then outputs[next := nextValue]
                else outputs[stranded := value][next := nextValue])
  {
    var left := latches[stranded.chip := DacGainBiasWord(stranded, value)];
    var latched := left[next.chip := DacGainBiasWord(next, nextValue)];
    if stranded.chip == next.chip {
      assert latched == latches[next.chip := DacGainBiasWord(next, nextValue)];
      LatchThenTransfer(latches, outputs, next, nextValue);
    } else {
      LatchThenTransfer(latches, outputs, stranded, value);
      var driven := outputs[stranded := value];
      LatchThenTransfer(left, driven, next, nextValue);
      TransferTwice(latched, outputs, driven, stranded, value);
    }
  }

  /** A transfer that drives a latched word finds its pin already driven or
      drives it. */
  lemma TransferTwice(latches: Latches, outputs: Outputs, driven: Outputs, route: DacRoute, value: u16)
    requires route.channel < 4 && value <= DAC_12BIT_MAX && driven == outputs[route := value]
    requires route.chip in latches && latches[route.chip] == DacGainBiasWord(route, value)
    ensures Transfer(latches, driven) == Transfer(latches, outputs)
  {
    WordFields(route, value);
    forall chip ensures chip != route.chip && chip in latches ==> Pin(chip, latches[chip]) != route {}
  }

  // ---------- cached levels ----------

  type Five = s: seq<u16> | |s| == 5 witness [0, 0, 0, 0, 0]

  datatype Levels = Levels(attenuation: Five, bias: Five, vbias: u16) {
    function Level(o: Output): u16
      requires IsOutput(o)
    {
      match o
      case Gain(afe) => attenuation[afe]
      case Bias(afe) => bias[afe]
      case Vbias => vbias
    }

    function Set(o: Output, value: u16): Levels
      requires IsOutput(o)
    {
      match o
      case Gain(afe) => this.(attenuation := attenuation[afe := value])
      case Bias(afe) => this.(bias := bias[afe := value])
      case Vbias => this.(vbias := value)
    }
  }

  datatype LevelWrite = LevelWrite(output: Output, value: u16)

  predicate InRange(w: LevelWrite) {
    IsOutput(w.output) && w.value <= DAC_12BIT_MAX
  }

  datatype DacState = DacState(levels: Levels, outputs: Outputs) {
    /** A write that succeeds. */
    function Step(w: LevelWrite): DacState
      requires InRange(w)
    {
      DacState(levels.Set(w.output, w.value), outputs[Route(w.output) := w.value])
    }

    function Run(ws: seq<LevelWrite>): DacState
      requires forall w :: w in ws ==> InRange(w)
    {
      if ws == [] then this else Run(ws[..|ws| - 1]).Step(ws[|ws| - 1])
    }
  }

  function LastLevel(ws: seq<LevelWrite>, o: Output): Option<u16> {
    if ws == [] then None
    else if ws[|ws| - 1].output == o then Some(ws[|ws| - 1].value)
    else LastLevel(ws[..|ws| - 1], o)
  }

  /** In every run of successful writes, an output that was written has the
      last level set for it, on its pin and in the cache; one that was not
      keeps both, whatever was written to the outputs it shares a chip with. */
  lemma {:induction false} PinsFollowLevels(s: DacState, ws: seq<LevelWrite>, o: Output)
    requires IsOutput(o) && forall w :: w in ws ==> InRange(w)
    ensures var t := s.Run(ws);
            match LastLevel(ws, o)
            case Some(value) =>
              t.levels.Level(o) == value && Route(o) in t.outputs && t.outputs[Route(o)] == value
            case None =>
              && t.levels.Level(o) == s.levels.Level(o)
              && (Route(o) in t.outputs <==> Route(o) in s.outputs)
              && (Route(o) in s.outputs ==> t.outputs[Route(o)] == s.outputs[Route(o)])
    decreases |ws|
  {
    if ws != [] {
      var last := ws[|ws| - 1];
      assert last in ws;
      PinsFollowLevels(s, ws[..|ws| - 1], o);
      RoutesAreInjective(last.output, o);
    }
  }
}
