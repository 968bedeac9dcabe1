/** Trim and offset values: the cached halves, the paired words sent and the
    codes the DACs hold (crates/daphne-sc-rpu/src/mmio.rs, lines 342-399 and
    584-625). One PairDac is the trim side, another the offset side. */
module PairedDacs {
  import opened Words
  import opened Afe
  import opened AfeHw
  import opened Board

  type Halves = s: seq<u16> | |s| == 8 witness [0, 0, 0, 0, 0, 0, 0, 0]

  const NO_HALVES: Halves := [0, 0, 0, 0, 0, 0, 0, 0]

  type AllHalves = s: seq<Halves> | |s| == 5 witness [NO_HALVES, NO_HALVES, NO_HALVES, NO_HALVES, NO_HALVES]

  /** A channel's place: PL number of its AFE and number within the AFE. */
  datatype Place = Place(afe: nat, channel: nat) {
    predicate Exists() {
      afe < 5 && channel < 8
    }

    function Companion(): Place {
      Place(afe, if channel < 4 then channel + 4 else if channel < 8 then channel - 4 else channel)
    }

    /** The first channel of the place's group of four. */
    function Base(): Place {
      Place(afe, if channel < 4 then 0 else 4)
    }
  }

  datatype PairWrite = PairWrite(place: Place, value: u16, gain: bool)

  function PairedWord(halves: Halves, channel: nat): u32
    requires channel < 8
  {
    if DacChannelIsHighHalf(channel) then DacPairWord(halves[channel - 4], halves[channel])
    else DacPairWord(halves[channel], halves[channel + 4])
  }

  datatype PairDac = PairDac(halves: AllHalves, banks: Banks) {
    function Half(p: Place): u16
      requires p.Exists()
    {
      halves[p.afe][p.channel]
    }

    function Code(p: Place): u16
      requires p.Exists()
    {
      banks[p.afe][p.channel]
    }

    /** What a read command returns. */
    function Value(p: Place): u16
      requires p.Exists()
    {
      Half(p) % 0x1000
    }

    /** The cache after a write, before its word is sent. */
    function Cached(w: PairWrite): AllHalves
      requires w.place.Exists()
    {
      halves[w.place.afe := halves[w.place.afe][w.place.channel := DacTrimOffsetHalf(w.place.channel, w.value, w.gain)]]
    }

    /** A write that succeeds: the cache is updated, then the word with both
        halves of the pair is sent. */
    function Step(w: PairWrite): PairDac
      requires w.place.Exists()
    {
      var cached := Cached(w);
      var a := w.place.afe;
      PairDac(cached, banks[a := BankWrite(banks[a], PairedWord(cached[a], w.place.channel))])
    }

    function Run(ws: seq<PairWrite>): PairDac
      requires forall w :: w in ws ==> w.place.Exists()
    {
      if ws == [] then this else Run(ws[..|ws| - 1]).Step(ws[|ws| - 1])
    }
  }

  lemma RunAppends(s: PairDac, ws: seq<PairWrite>, w: PairWrite)
    requires w.place.Exists() && forall x :: x in ws ==> x.place.Exists()
    ensures s.Run(ws + [w]) == s.Run(ws).Step(w)
  {
    assert (ws + [w])[..|ws|] == ws;
  }

  lemma {:induction false} RunConcat(s: PairDac, ws: seq<PairWrite>, xs: seq<PairWrite>)
    requires forall w :: w in ws + xs ==> w.place.Exists()
    ensures (forall w :: w in ws ==> w.place.Exists()) && (forall w :: w in xs ==> w.place.Exists())
    ensures s.Run(ws + xs) == s.Run(ws).Run(xs)
    decreases |xs|
  {
    assert forall w :: w in ws ==> w in ws + xs;
    assert forall w :: w in xs ==> w in ws + xs;
    if xs == [] {
      assert ws + xs == ws;
    } else {
      var rest, last := xs[..|xs| - 1], xs[|xs| - 1];
      assert ws + xs == (ws + rest) + [last];
      assert forall w :: w in ws + rest ==> w in ws + xs;
      RunConcat(s, ws, rest);
      RunAppends(s, ws + rest, last);
    }
  }

  // ---------- reads return the last value set ----------

  /** Whether a place was written, and the last value it was given. */
  function LastSet(ws: seq<PairWrite>, p: Place): Option<u16> {
    if ws == [] then None
    else if ws[|ws| - 1].place == p then Some(ws[|ws| - 1].value)
    else LastSet(ws[..|ws| - 1], p)
  }

  lemma HalfFields(channel: nat, value: u16, gain: bool)
    requires channel < 8 && value <= DAC_12BIT_MAX
    ensures var half := DacTrimOffsetHalf(channel, value, gain);
            half / 0x4000 == channel % 4 && half % 0x1000 == value
            && half % 0x4000 == value + if gain then 0x2000 else 0
  {}

  /** After any run of successful writes a read returns the last value set for
      its channel, and a channel the run did not touch reads as before. */
  lemma {:induction false} ReadsReturnLastSet(s: PairDac, ws: seq<PairWrite>, p: Place)
    requires p.Exists() && forall w :: w in ws ==> w.place.Exists() && w.value <= DAC_12BIT_MAX
    ensures s.Run(ws).Value(p) == if LastSet(ws, p).Some? then LastSet(ws, p).value else s.Value(p)
    decreases |ws|
  {
    if ws != [] {
      var rest, last := ws[..|ws| - 1], ws[|ws| - 1];
      ReadsReturnLastSet(s, rest, p);
      HalfFields(last.place.channel, last.value, last.gain);
    }
  }

  // ---------- the codes the DACs hold ----------

  /** The cache is what writes to exactly the places in `written` leave: those
      halves carry their own address, the others are still zero. */
  ghost predicate Addressed(s: PairDac, written: set<Place>) {
    forall p: Place :: p.Exists() ==>
      if p in written then s.Half(p) / 0x4000 == p.channel % 4 else s.Half(p) == 0
  }

  /** Every written channel's DAC holds the code in the cache. */
  ghost predicate Agrees(s: PairDac, written: set<Place>) {
    forall p: Place :: p.Exists() && p in written ==> s.Code(p) == s.Half(p) % 0x4000
  }

  /** Writing `p` sends its companion's half too. If the companion was never
      written that half is zero, and it zeroes the base channel of its group:
      harmless unless that channel was written with a nonzero code. */
  predicate Harmless(s: PairDac, written: set<Place>, p: Place)
    requires p.Exists()
  {
    var c := p.Companion();
    c in written || c.Base() !in written || s.Half(c.Base()) % 0x4000 == 0
  }

  lemma PairSplits(low: u16, high: u16)
    ensures DacPairWord(low, high) % 0x1_0000 == low && DacPairWord(low, high) / 0x1_0000 == high
  {}

  /** A word carries the low half of channel c and the high half of channel
      c + 4, and once both have been written the halves carry the same address. */
  lemma WordsPairCompanions(s: PairDac, written: set<Place>, w: PairWrite)
    requires w.place.Exists() && w.value <= DAC_12BIT_MAX && Addressed(s, written)
    ensures var a, c := w.place.afe, w.place.channel % 4;
            var cached := s.Cached(w)[a];
            var word := PairedWord(cached, w.place.channel);
            && word % 0x1_0000 == cached[c] && word / 0x1_0000 == cached[c + 4]
            && (w.place.Companion() in written ==> cached[c] / 0x4000 == c && cached[c + 4] / 0x4000 == c)
  {
    var a, c := w.place.afe, w.place.channel % 4;
    var cached := s.Cached(w)[a];
    PairSplits(cached[c], cached[c + 4]);
    HalfFields(w.place.channel, w.value, w.gain);
    assert w.place.Companion().Exists();
  }

  lemma PairWritten(bank: Bank, low: u16, high: u16)
    ensures BankWrite(bank, DacPairWord(low, high))
         == bank[low / 0x4000 := low % 0x4000][4 + high / 0x4000 := high % 0x4000]
  {
    PairSplits(low, high);
  }

  /** The bank after one write, by the two places its word reaches. */
  lemma StepCodes(s: PairDac, written: set<Place>, w: PairWrite)
    requires w.place.Exists() && w.value <= DAC_12BIT_MAX && Addressed(s, written)
    ensures var p, c, t := w.place, w.place.Companion(), s.Step(w);
            && c.Exists()
            && t.Half(p) == DacTrimOffsetHalf(p.channel, w.value, w.gain)
            && t.Code(p) == t.Half(p) % 0x4000
            && t.Code(if c in written then c else c.Base()) == s.Half(c) % 0x4000
            && (forall q: Place :: q.Exists() && q != p ==> t.Half(q) == s.Half(q))
            && (forall q: Place :: q.Exists() && q != p && q != (if c in written then c else c.Base()) ==>
                  t.Code(q) == s.Code(q))
  {
    var p, c := w.place, w.place.Companion();
    hide BankWrite, DacPairWord, DacTrimOffsetHalf;
    HalfFields(p.channel, w.value, w.gain);
    var cached := s.Cached(w)[p.afe];
    var low, high := cached[p.channel % 4], cached[p.channel % 4 + 4];
    PairWritten(s.banks[p.afe], low, high);
    assert s.Half(c) == cached[c.channel];
    assert low / 0x4000 == if p.channel < 4 || c in written then p.channel % 4 else 0;
    assert high / 0x4000 == if p.channel >= 4 || c in written then p.channel % 4 else 0;
  }

  /** The exact condition for a write to keep the DACs in agreement with the
      cache. */
  lemma StepAgreesExactly(s: PairDac, written: set<Place>, w: PairWrite)
    requires w.place.Exists() && w.value <= DAC_12BIT_MAX
    requires Addressed(s, written) && Agrees(s, written)
    ensures Addressed(s.Step(w), written + {w.place})
    ensures Agrees(s.Step(w), written + {w.place}) <==> Harmless(s, written, w.place)
  {
    hide PairDac.Step, DacTrimOffsetHalf;
    var p, c, t := w.place, w.place.Companion(), s.Step(w);
    StepCodes(s, written, w);
    StepAddressed(s, written, w);
    var d := if c in written then c else c.Base();
    assert Agrees(t, written + {p}) <==> d == p || d !in written || t.Code(d) == t.Half(d) % 0x4000;
  }

  function Places(ws: seq<PairWrite>): set<Place> {
    set w | w in ws :: w.place
  }

  /** Every cached half is zero or carries its own address: what the constructor
      and every write leave, whether the transfer succeeds or not. */
  predicate SaneHalves(halves: AllHalves) {
    forall a, c :: 0 <= a < 5 && 0 <= c < 8 ==> halves[a][c] == 0 || halves[a][c] / 0x4000 == c % 4
  }

  function AllPlaces(): set<Place> {
    set a, c | 0 <= a < 5 && 0 <= c < 8 :: Place(a, c)
  }

  /** The places whose half carries its own address. */
  function AddressedPlaces(s: PairDac): set<Place> {
    set p | p in AllPlaces() && s.halves[p.afe][p.channel] / 0x4000 == p.channel % 4
  }

  lemma SaneIsAddressed(s: PairDac)
    requires SaneHalves(s.halves)
    ensures Addressed(s, AddressedPlaces(s))
  {
    forall p: Place | p.Exists()
      ensures if p in AddressedPlaces(s) then s.Half(p) / 0x4000 == p.channel % 4 else s.Half(p) == 0
    {
      assert p == Place(p.afe, p.channel);
      assert p in AllPlaces();
    }
  }

  lemma CacheStaysSane(s: PairDac, w: PairWrite)
    requires w.place.Exists() && w.value <= DAC_12BIT_MAX && SaneHalves(s.halves)
    ensures SaneHalves(s.Cached(w))
  {
    HalfFields(w.place.channel, w.value, w.gain);
  }

  lemma StepAddressed(s: PairDac, written: set<Place>, w: PairWrite)
    requires w.place.Exists() && w.value <= DAC_12BIT_MAX && Addressed(s, written)
    ensures Addressed(s.Step(w), written + {w.place})
  {
    StepCodes(s, written, w);
    HalfFields(w.place.channel, w.value, w.gain);
  }

  /** In every state a run of writes can reach from power-on, the halves written
      carry their own address and the others are zero. */
  lemma {:induction false} ReachableIsAddressed(ws: seq<PairWrite>)
    requires forall w :: w in ws ==> w.place.Exists() && w.value <= DAC_12BIT_MAX
    ensures Addressed(POWER_ON.Run(ws), Places(ws))
  {
    hide PairDac.Step;
    if ws != [] {
      var rest, last := ws[..|ws| - 1], ws[|ws| - 1];
      ReachableIsAddressed(rest);
      StepAddressed(POWER_ON.Run(rest), Places(rest), last);
      assert ws == rest + [last];
      assert Places(ws) == Places(rest) + {last.place};
    }
  }

  /** Once the companions of all written channels have been written too, every
      run of writes keeps the DACs in agreement with the cache. */
  lemma {:induction false} RunKeepsAgreement(s: PairDac, written: set<Place>, ws: seq<PairWrite>)
    requires Addressed(s, written) && Agrees(s, written)
    requires forall w :: w in ws ==> w.place.Exists() && w.value <= DAC_12BIT_MAX && w.place.Companion() in written
    ensures Addressed(s.Run(ws), written + Places(ws)) && Agrees(s.Run(ws), written + Places(ws))
    decreases |ws|
  {
    hide PairDac.Step, Addressed, Agrees;
    if ws == [] {
      assert written + Places(ws) == written;
    } else {
      var rest, last := ws[..|ws| - 1], ws[|ws| - 1];
      RunKeepsAgreement(s, written, rest);
      StepAgreesExactly(s.Run(rest), written + Places(rest), last);
      assert ws == rest + [last];
      assert written + Places(ws) == written + Places(rest) + {last.place};
    }
  }

  /** The eight channels of one AFE, written in ascending order. */
  predicate WritesWholeAfe(ws: seq<PairWrite>, afe: nat) {
    afe < 5 && |ws| == 8
    && forall c :: 0 <= c < 8 ==> ws[c].place == Place(afe, c) && ws[c].value <= DAC_12BIT_MAX
  }

  function FirstPlaces(afe: nat, k: nat): set<Place> {
    set c | 0 <= c < k :: Place(afe, c)
  }

  lemma WholeAfeStep(s: PairDac, before: set<Place>, afe: nat, w: PairWrite, k: nat)
    requires afe < 5 && 0 < k <= 8 && w.place == Place(afe, k - 1) && w.value <= DAC_12BIT_MAX
    requires Addressed(s, before) && FirstPlaces(afe, k - 1) <= before && Agrees(s, FirstPlaces(afe, k - 1))
    ensures Addressed(s.Step(w), before + {w.place}) && Agrees(s.Step(w), FirstPlaces(afe, k))
  {
    StepCodes(s, before, w);
    HalfFields(w.place.channel, w.value, w.gain);
    var c := w.place.Companion();
    assert k > 4 ==> c in FirstPlaces(afe, k - 1);
    assert k <= 4 ==> c !in FirstPlaces(afe, k - 1) && c.Base() !in FirstPlaces(afe, k - 1);
    forall p: Place | p.Exists() && p in FirstPlaces(afe, k) && p != w.place
      ensures s.Step(w).Code(p) == s.Step(w).Half(p) % 0x4000
    {
      assert p in FirstPlaces(afe, k - 1);
    }
  }

  lemma {:induction false} WholeAfePrefix(s: PairDac, written: set<Place>, afe: nat, ws: seq<PairWrite>, k: nat)
    requires WritesWholeAfe(ws, afe) && k <= 8 && Addressed(s, written)
    ensures Addressed(s.Run(ws[..k]), written + FirstPlaces(afe, k))
    ensures Agrees(s.Run(ws[..k]), FirstPlaces(afe, k))
    ensures SameElsewhere(s, s.Run(ws[..k]), afe)
  {
    if k == 0 {
      assert written + FirstPlaces(afe, 0) == written;
    } else {
      WholeAfePrefix(s, written, afe, ws, k - 1);
      var w := ws[k - 1];
      RunAppends(s, ws[..k - 1], w);
      assert ws[..k] == ws[..k - 1] + [w];
      var r := s.Run(ws[..k - 1]);
      FirstPlacesGrow(written, afe, k);
      WholeAfeStep(r, written + FirstPlaces(afe, k - 1), afe, w, k);
      StepElsewhere(s, r, w);
    }
  }

  lemma FirstPlacesGrow(written: set<Place>, afe: nat, k: nat)
    requires k > 0
    ensures written + FirstPlaces(afe, k) == written + FirstPlaces(afe, k - 1) + {Place(afe, k - 1)}
  {
    assert FirstPlaces(afe, k) == FirstPlaces(afe, k - 1) + {Place(afe, k - 1)};
  }

  lemma StepElsewhere(s: PairDac, r: PairDac, w: PairWrite)
    requires w.place.Exists() && SameElsewhere(s, r, w.place.afe)
    ensures SameElsewhere(s, r.Step(w), w.place.afe)
  {}

  ghost predicate SameElsewhere(s: PairDac, t: PairDac, afe: nat) {
    forall p: Place :: p.Exists() && p.afe != afe ==> t.Half(p) == s.Half(p) && t.Code(p) == s.Code(p)
  }

  /** Writing a whole AFE repairs it, whatever its DACs held before. */
  lemma WholeAfeAgrees(s: PairDac, written: set<Place>, afe: nat, ws: seq<PairWrite>)
    requires WritesWholeAfe(ws, afe) && Addressed(s, written)
    ensures Addressed(s.Run(ws), written + FirstPlaces(afe, 8))
    ensures Agrees(s.Run(ws), FirstPlaces(afe, 8))
    ensures SameElsewhere(s, s.Run(ws), afe)
  {
    assert ws[..8] == ws;
    WholeAfePrefix(s, written, afe, ws, 8);
  }

  /** Hence after one write of a whole AFE, every later run of writes to that
      AFE leaves each of its DACs at the code cached for it. */
  lemma WholeAfeThenAnyRun(s: PairDac, written: set<Place>, afe: nat, ws: seq<PairWrite>, later: seq<PairWrite>)
    requires WritesWholeAfe(ws, afe) && Addressed(s, written)
    requires forall w :: w in later ==> w.place.Exists() && w.place.afe == afe && w.value <= DAC_12BIT_MAX
    ensures var t := s.Run(ws).Run(later);
            forall c :: 0 <= c < 8 ==> t.Code(Place(afe, c)) == t.Half(Place(afe, c)) % 0x4000
  {
    WholeAfeAgrees(s, written, afe, ws);
    var t, all := s.Run(ws), written + FirstPlaces(afe, 8);
    OneAfeKeepsAgreement(t, all, afe, later);
    assert forall c :: 0 <= c < 8 ==> Place(afe, c) in FirstPlaces(afe, 8);
  }

  lemma {:induction false} OneAfeKeepsAgreement(s: PairDac, written: set<Place>, afe: nat, ws: seq<PairWrite>)
    requires afe < 5 && Addressed(s, written)
    requires FirstPlaces(afe, 8) <= written && Agrees(s, FirstPlaces(afe, 8))
    requires forall w :: w in ws ==> w.place.Exists() && w.place.afe == afe && w.value <= DAC_12BIT_MAX
    ensures Addressed(s.Run(ws), written) && Agrees(s.Run(ws), FirstPlaces(afe, 8))
    decreases |ws|
  {
    if ws != [] {
      var rest, last := ws[..|ws| - 1], ws[|ws| - 1];
      OneAfeKeepsAgreement(s, written, afe, rest);
      assert last.place == Place(afe, last.place.channel) && last.place in FirstPlaces(afe, 8);
      assert last.place.Companion() in FirstPlaces(afe, 8);
      StepCodes(s.Run(rest), written, last);
      HalfFields(last.place.channel, last.value, last.gain);
    }
  }

  const POWER_ON: PairDac :=
    PairDac([NO_HALVES, NO_HALVES, NO_HALVES, NO_HALVES, NO_HALVES],
            [ZERO_BANK, ZERO_BANK, ZERO_BANK, ZERO_BANK, ZERO_BANK])

  /** Agreement can fail: from power-on, set channel 4 to 5 and then channel 1
      to 7. The read of channel 4 still says 5, its DAC holds 0. */
  lemma NeverWrittenCompanionClobbers()
    ensures var t := POWER_ON.Run([PairWrite(Place(0, 4), 5, false), PairWrite(Place(0, 1), 7, false)]);
            t.Value(Place(0, 4)) == 5 && t.Code(Place(0, 4)) == 0
  {
    var u, v := PairWrite(Place(0, 4), 5, false), PairWrite(Place(0, 1), 7, false);
    var r := POWER_ON.Run([u]);
    RunAppends(POWER_ON, [], u);
    RunAppends(POWER_ON, [u], v);
    assert [] + [u] == [u] && [u] + [v] == [u, v];
    assert Addressed(POWER_ON, {});
    StepAgreesExactly(POWER_ON, {}, u);
    StepCodes(r, {u.place}, v);
    HalfFields(4, 5, false);
  }
}
