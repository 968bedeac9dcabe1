/** The DACs of an AFE after some of its channels were written in ascending
    order, as a configuration writes them (crates/daphne-sc-rpu/src/mmio.rs,
    lines 401-422 and 584-625). One write's exact effect is in PairedDacs. */
module PartialAfes {
  import opened Words
  import opened Afe
  import opened AfeHw
  import opened PairedDacs

  /** The values an AFE is asked to take, channel by channel. */
  type Asked = s: seq<Option<u16>> | |s| == 8
    witness [None, None, None, None, None, None, None, None]

  const NOTHING: Asked := [None, None, None, None, None, None, None, None]

  predicate AllInRange(asked: Asked) {
    forall c :: 0 <= c < 8 && asked[c].Some? ==> asked[c].value <= DAC_12BIT_MAX
  }

  /** What the first `m` channels are asked for. */
  function FirstAsked(asked: Asked, m: nat): Asked {
    seq(8, c requires 0 <= c < 8 => if c < m then asked[c] else None)
  }

  /** A channel is written before its companion ever was: what its word carries
      for the companion goes to the base of the companion's group. */
  predicate Strays(d: PairDac, afe: nat, asked: Asked, c: nat)
    requires afe < 5 && c < 8
  {
    && asked[c].Some? && c % 4 != 0 && d.Half(Place(afe, c).Companion()) == 0
    && (c >= 4 ==> asked[c - 4].None?)
  }

  /** The base of a group is left at zero by the other group's strays, unless it
      is written after them. */
  predicate Wiped(d: PairDac, afe: nat, asked: Asked, c: nat)
    requires afe < 5 && c < 8
  {
    && (c == 0 || (c == 4 && asked[4].None?))
    && exists k :: 0 <= k < 8 && (k < 4 <==> c == 4) && Strays(d, afe, asked, k)
  }

  function FinalHalf(d: PairDac, afe: nat, asked: Asked, c: nat): u16
    requires afe < 5 && c < 8
  {
    match asked[c]
    case Some(value) => DacTrimOffsetHalf(c, value, false)
    case None => d.Half(Place(afe, c))
  }

  /** A place with a half of its own address: it was written, or is a base. */
  predicate HasAddress(d: PairDac, p: Place)
    requires p.Exists()
  {
    p.channel % 4 == 0 || d.Half(p) != 0
  }

  /** What a DAC ends at: the value asked for, or what the cache had for it if
      its companion was written, or what it was; and zero if it is wiped. */
  function FinalCode(d: PairDac, afe: nat, asked: Asked, c: nat): u16
    requires afe < 5 && c < 8
  {
    var p := Place(afe, c);
    if Wiped(d, afe, asked, c) then 0
    else if asked[c].Some? then asked[c].value
    else if asked[p.Companion().channel].Some? && HasAddress(d, p) then d.Half(p) % 0x4000
    else d.Code(p)
  }

  /** From `d` to `t` the AFE took what was asked of it. */
  ghost predicate Takes(d: PairDac, t: PairDac, afe: nat, asked: Asked)
    requires afe < 5
  {
    forall c :: 0 <= c < 8 ==>
      t.Half(Place(afe, c)) == FinalHalf(d, afe, asked, c) && t.Code(Place(afe, c)) == FinalCode(d, afe, asked, c)
  }

  lemma SaneAddress(s: PairDac, p: Place)
    requires SaneHalves(s.halves) && p.Exists()
    ensures p in AddressedPlaces(s) <==> HasAddress(s, p)
  {
    SaneIsAddressed(s);
    assert p == Place(p.afe, p.channel) && p in AllPlaces();
  }

  lemma NothingAsked(d: PairDac, afe: nat, asked: Asked)
    requires afe < 5
    ensures Takes(d, d, afe, FirstAsked(asked, 0))
  {}

  lemma NotAsked(asked: Asked, m: nat)
    requires m < 8 && asked[m].None?
    ensures FirstAsked(asked, m + 1) == FirstAsked(asked, m)
  {}

  lemma AllAsked(asked: Asked)
    ensures FirstAsked(asked, 8) == asked
  {}

  lemma StraysGrow(d: PairDac, afe: nat, asked: Asked, m: nat)
    requires afe < 5 && m < 8 && asked[m].Some?
    ensures var a, b := FirstAsked(asked, m), FirstAsked(asked, m + 1);
      && !Wiped(d, afe, b, m)
      && (forall c :: c == 0 || c == 4 ==>
            (Wiped(d, afe, b, c) <==>
               (c == 4 ==> m != 4) && (Wiped(d, afe, a, c) || ((m < 4 <==> c == 4) && Strays(d, afe, b, m)))))
  {
    var a, b := FirstAsked(asked, m), FirstAsked(asked, m + 1);
    forall k | 0 <= k < 8 ensures Strays(d, afe, a, k) <==> k != m && Strays(d, afe, b, k) {
      hide PairDac.Half;
    }
    hide Strays;
  }

  /** The other DAC a write of channel `m` reaches after the channels before it. */
  function Reached(d: PairDac, afe: nat, asked: Asked, m: nat): nat
    requires afe < 5 && m < 8
  {
    var c := if m < 4 then m + 4 else m - 4;
    if c % 4 == 0 || FinalHalf(d, afe, FirstAsked(asked, m), c) != 0 then c else if m < 4 then 4 else 0
  }

  lemma FinalGrows(d: PairDac, afe: nat, asked: Asked, m: nat, k: nat)
    requires afe < 5 && m < 8 && k < 8 && asked[m].Some? && AllInRange(asked)
    ensures var a, b, c := FirstAsked(asked, m), FirstAsked(asked, m + 1), if m < 4 then m + 4 else m - 4;
      && (k != m ==> FinalHalf(d, afe, b, k) == FinalHalf(d, afe, a, k))
      && FinalCode(d, afe, b, k) ==
           if k == m then asked[m].value
           else if k == Reached(d, afe, asked, m) then FinalHalf(d, afe, a, c) % 0x4000
           else FinalCode(d, afe, a, k)
  {
    var a, b, c := FirstAsked(asked, m), FirstAsked(asked, m + 1), if m < 4 then m + 4 else m - 4;
    StraysGrow(d, afe, asked, m);
    if a[c].Some? {
      HalfFields(c, a[c].value, false);
    }
    hide Wiped, DacTrimOffsetHalf;
    assert k != m ==> b[k] == a[k];
  }

  /** One more channel of the AFE is written. */
  lemma AskedStep(d: PairDac, s: PairDac, afe: nat, asked: Asked, m: nat, w: PairWrite)
    requires afe < 5 && m < 8 && SaneHalves(s.halves) && Takes(d, s, afe, FirstAsked(asked, m))
    requires asked[m] == Some(w.value) && w.place == Place(afe, m) && !w.gain && AllInRange(asked)
    ensures Takes(d, s.Step(w), afe, FirstAsked(asked, m + 1))
  {
    var b, t, c := FirstAsked(asked, m + 1), s.Step(w), w.place.Companion();
    SaneIsAddressed(s);
    SaneAddress(s, c);
    StepCodes(s, AddressedPlaces(s), w);
    HalfFields(m, w.value, false);
    assert FinalHalf(d, afe, b, m) == DacTrimOffsetHalf(m, w.value, false);
    hide PairDac.Step, DacTrimOffsetHalf, FinalHalf, FinalCode, SaneHalves, AddressedPlaces, FirstAsked;
    forall k | 0 <= k < 8
      ensures t.Half(Place(afe, k)) == FinalHalf(d, afe, b, k) && t.Code(Place(afe, k)) == FinalCode(d, afe, b, k)
    {
      FinalGrows(d, afe, asked, m, k);
    }
  }

  /** Writes to other AFEs. */
  lemma OtherStep(d: PairDac, s: PairDac, afe: nat, asked: Asked, w: PairWrite)
    requires afe < 5 && w.place.Exists() && w.place.afe != afe && Takes(d, s, afe, asked)
    ensures Takes(d, s.Step(w), afe, asked)
  {}
}
