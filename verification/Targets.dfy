/** What the trim and offset commands leave, for one channel, the channels of an
    AFE or all of them (crates/daphne-sc-rpu/src/mmio.rs, lines 342-380 and
    584-625). */
module Targets {
  import opened Words
  import opened Afe
  import opened AfeHw
  import opened PairedDacs
  import opened Mmio
  import opened Configuration
  import opened Effects

  predicate InTarget(target: ChannelTarget, p: Place) {
    match target
    case One(channel) => p == PlaceOfChannel(channel)
    case OneAfe(afe) => p.afe == afe.pl
    case All => true
  }

  /** The writes of a command name every place of its target and no other, with
      the command's value and gain. */
  lemma TargetWritten(target: ChannelTarget, value: u16, gain: bool, p: Place)
    requires value <= DAC_12BIT_MAX && p.Exists()
    ensures forall w :: w in TargetWrites(target, value, gain) ==>
      w.place.Exists() && InTarget(target, w.place) && w.value == value && w.gain == gain
    ensures InTarget(target, p) ==> PairWrite(p, value, gain) in TargetWrites(target, value, gain)
  {
    match target
    case One(_) =>
    case OneAfe(afe) =>
      PlIsInjective(afe, afe);
      AfeWritten(afe.pl, value, gain, p);
    case All =>
      AllWritten(5, value, gain, p);
  }

  lemma AfeWritten(afe: nat, value: u16, gain: bool, p: Place)
    requires afe < 5 && value <= DAC_12BIT_MAX && p.Exists()
    ensures forall w :: w in AfeWrites(afe, value, gain) ==> w.place.afe == afe && w.value == value && w.gain == gain
    ensures p.afe == afe ==> PairWrite(p, value, gain) in AfeWrites(afe, value, gain)
  {
    if p.afe == afe {
      assert AfeWrites(afe, value, gain)[p.channel] == PairWrite(p, value, gain);
    }
  }

  lemma {:induction false} AllWritten(n: nat, value: u16, gain: bool, p: Place)
    requires n <= 5 && value <= DAC_12BIT_MAX && p.Exists()
    ensures forall w :: w in AllWrites(n, value, gain) ==> w.value == value && w.gain == gain
    ensures p.afe < n ==> PairWrite(p, value, gain) in AllWrites(n, value, gain)
  {
    hide AfeWrites;
    if n > 0 {
      AllWritten(n - 1, value, gain, p);
      AfeWritten(n - 1, value, gain, p);
    }
  }

  /** Cached halves after writes of one value. */
  lemma {:induction false} SameValueCached(s: PairDac, ws: seq<PairWrite>, value: u16, gain: bool, p: Place)
    requires p.Exists() && value <= DAC_12BIT_MAX
    requires forall w :: w in ws ==> w.place.Exists() && w.value == value && w.gain == gain
    ensures s.Run(ws).Half(p)
         == if PairWrite(p, value, gain) in ws then DacTrimOffsetHalf(p.channel, value, gain) else s.Half(p)
    decreases |ws|
  {
    hide DacTrimOffsetHalf;
    if ws != [] {
      var rest, last := ws[..|ws| - 1], ws[|ws| - 1];
      SameValueCached(s, rest, value, gain, p);
      assert ws == rest + [last];
      assert last.place == p ==> last == PairWrite(p, value, gain);
    }
  }

  /** After a trim or offset command every channel of its target reads the value,
      and every other channel reads as before. */
  lemma TargetReads(s: PairDac, target: ChannelTarget, value: u16, gain: bool, p: Place)
    requires value <= DAC_12BIT_MAX && p.Exists()
    ensures forall w :: w in TargetWrites(target, value, gain) ==> w.place.Exists()
    ensures s.Run(TargetWrites(target, value, gain)).Value(p) == if InTarget(target, p) then value else s.Value(p)
  {
    hide TargetWrites, DacTrimOffsetHalf, PairDac.Run;
    TargetWritten(target, value, gain, p);
    SameValueCached(s, TargetWrites(target, value, gain), value, gain, p);
    HalfFields(p.channel, value, gain);
  }

  /** And every DAC of the target ends at the value with its gain bit, whatever it
      held, if the cached halves are zero or carry their address. */
  lemma TargetCodes(s: PairDac, target: ChannelTarget, value: u16, gain: bool, p: Place)
    requires value <= DAC_12BIT_MAX && p.Exists() && SaneHalves(s.halves)
    requires InTarget(target, p)
    ensures forall w :: w in TargetWrites(target, value, gain) ==> w.place.Exists()
    ensures s.Run(TargetWrites(target, value, gain)).Code(p) == value + if gain then 0x2000 else 0
  {
    hide DacTrimOffsetHalf, PairDac.Run, Addressed, SaneHalves;
    TargetWritten(target, value, gain, p);
    var ws := TargetWrites(target, value, gain);
    SameValueCached(s, ws, value, gain, p);
    HalfFields(p.channel, value, gain);
    SaneIsAddressed(s);
    match target
    case One(_) =>
      StepCodes(s, AddressedPlaces(s), ws[0]);
      RunOne(s, ws);
    case OneAfe(afe) =>
      PlIsInjective(afe, afe);
      WholeAfeAgrees(s, AddressedPlaces(s), afe.pl, ws);
      AgreesAt(s.Run(ws), afe.pl, p);
    case All =>
      var _ := AllAgree(s, AddressedPlaces(s), 5, value, gain, p);
  }

  lemma AgreesAt(t: PairDac, afe: nat, p: Place)
    requires p.Exists() && p.afe == afe && Agrees(t, FirstPlaces(afe, 8))
    ensures t.Code(p) == t.Half(p) % 0x4000
  {
    assert p == Place(afe, p.channel) && p in FirstPlaces(afe, 8);
  }

  lemma {:induction false} AllAgree(s: PairDac, written: set<Place>, n: nat, value: u16, gain: bool, p: Place)
    returns (after: set<Place>)
    requires n <= 5 && value <= DAC_12BIT_MAX && p.Exists() && Addressed(s, written)
    ensures var t := s.Run(AllWrites(n, value, gain));
            Addressed(t, after) && (p.afe < n ==> t.Code(p) == t.Half(p) % 0x4000)
  {
    hide AfeWrites, PairDac.Run, Addressed, Agrees;
    if n == 0 {
      NothingWritten(s);
      after := written;
    } else {
      var before, ws := AllWrites(n - 1, value, gain), AfeWrites(n - 1, value, gain);
      var reached := AllAgree(s, written, n - 1, value, gain, p);
      RunConcat(s, before, ws);
      WholeAfeAgrees(s.Run(before), reached, n - 1, ws);
      after := reached + FirstPlaces(n - 1, 8);
      if p.afe == n - 1 {
        AgreesAt(s.Run(before + ws), n - 1, p);
      }
    }
  }

  lemma NothingWritten(s: PairDac)
    ensures s.Run([]) == s
  {}
}
