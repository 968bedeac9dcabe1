/** The AFE function dictionary and its bit-field arithmetic
    (crates/daphne-sc-core/src/afe_functions.rs). */
module AfeFunctions {
  import opened Words

  /** Bits `lsb` to `msb`, inclusive, of one 16-bit AFE register. */
  datatype AfeBitField = AfeBitField(register: u16, msb: u8, lsb: u8)

  datatype AfeFunctionValues = Range(min: u16, max: u16) | Options(options: seq<u16>) {
    predicate Contains(value: u16) {
      match this
      case Range(min, max) => min <= value <= max
      case Options(options) => value in options
    }
  }

  datatype AfeFunctionSpec = AfeFunctionSpec(name: string, field: AfeBitField, values: AfeFunctionValues)

  datatype AfeFunctionError = UnknownName | InvalidValue | InvalidBitField

  // ---------- bitwise operations on 16-bit words ----------

  type Word = s: seq<bool> | |s| == 16 witness Bits(16, 0)

  function And(a: Word, b: Word): Word {
    seq(16, i requires 0 <= i < 16 => a[i] && b[i])
  }

  function Or(a: Word, b: Word): Word {
    seq(16, i requires 0 <= i < 16 => a[i] || b[i])
  }

  function Not(a: Word): Word {
    seq(16, i requires 0 <= i < 16 => !a[i])
  }

  function ShiftLeft(a: Word, k: nat): Word {
    seq(16, i requires 0 <= i < 16 => k <= i && a[i - k])
  }

  function ShiftRight(a: Word, k: nat): Word {
    seq(16, i requires 0 <= i < 16 => i + k < 16 && a[i + k])
  }

  function Pattern(v: u16): Word {
    Bits(16, v)
  }

  function Number(w: Word): u16 {
    BitsOfBits(w);
    WordBounds();
    OfBits(w)
  }

  lemma PatternNumber(w: Word)
    ensures Pattern(Number(w)) == w
  {
    BitsOfBits(w);
  }

  lemma NumberPattern(v: u16)
    ensures Number(Pattern(v)) == v
  {
    WordBounds();
    OfBitsBits(16, v);
  }

  // ---------- bit fields ----------

  predicate WellFormed(field: AfeBitField) {
    field.lsb <= field.msb < 16
  }

  function Width(field: AfeBitField): nat
    requires WellFormed(field)
  {
    field.msb - field.lsb + 1
  }

  function Mask(field: AfeBitField): (r: Result<u16, AfeFunctionError>)
    ensures r.Ok? <==> WellFormed(field)
    ensures r.Err? ==> r.error == InvalidBitField
    ensures r.Ok? ==> forall i :: 0 <= i < 16 ==> (Pattern(r.value)[i] <==> field.lsb <= i <= field.msb)
  {
    if field.msb < field.lsb || field.msb >= 16 then
      Err(InvalidBitField)
    else
      var width := field.msb - field.lsb + 1;
      OnesNumber(width, field.lsb);
      OnesBits(16, width, field.lsb);
      WordBounds();
      Ok((Pow2(width) - 1) * Pow2(field.lsb))
  }

  function ReplaceBits(register: u16, field: AfeBitField, value: u16): Result<u16, AfeFunctionError> {
    var mask :- Mask(field);
    Ok(Number(Or(And(Pattern(register), Not(Pattern(mask))),
                 And(ShiftLeft(Pattern(value), field.lsb), Pattern(mask)))))
  }

  function ExtractBits(register: u16, field: AfeBitField): Result<u16, AfeFunctionError> {
    var mask :- Mask(field);
    Ok(Number(ShiftRight(And(Pattern(register), Pattern(mask)), field.lsb)))
  }

  lemma BitsDefined(register: u16, field: AfeBitField, value: u16)
    ensures ReplaceBits(register, field, value).Ok? <==> Mask(field).Ok?
    ensures ExtractBits(register, field).Ok? <==> Mask(field).Ok?
    ensures WellFormed(field) ==> Mask(field).Ok?
  {}

  /** `width` ones followed by `lsb` zeros. */
  function Ones(width: nat, lsb: nat): nat {
    if lsb > 0 then 2 * Ones(width, lsb - 1) else if width > 0 then 2 * Ones(width - 1, 0) + 1 else 0
  }

  lemma {:induction false} OnesNumber(width: nat, lsb: nat)
    ensures Ones(width, lsb) == (Pow2(width) - 1) * Pow2(lsb)
  {
    if lsb > 0 {
      OnesNumber(width, lsb - 1);
    } else if width > 0 {
      OnesNumber(width - 1, 0);
    }
  }

  lemma {:induction false} OnesBits(n: nat, width: nat, lsb: nat)
    requires lsb + width <= n
    ensures Ones(width, lsb) < Pow2(n)
    ensures forall i :: 0 <= i < n ==> (Bits(n, Ones(width, lsb))[i] <==> lsb <= i < lsb + width)
  {
    if n > 0 {
      var v := Ones(width, lsb);
      if lsb > 0 {
        OnesBits(n - 1, width, lsb - 1);
      } else {
        OnesBits(n - 1, if width > 0 then width - 1 else 0, 0);
      }
      assert Bits(n, v) == [v % 2 == 1] + Bits(n - 1, v / 2);
    }
  }

  /** What a field write does to the register's bit pattern. */
  lemma ReplacedPattern(register: u16, field: AfeBitField, value: u16)
    requires WellFormed(field)
    ensures var r := Pattern(ReplaceBits(register, field, value).value);
            forall i :: 0 <= i < 16 ==>
              r[i] == if field.lsb <= i <= field.msb then Pattern(value)[i - field.lsb] else Pattern(register)[i]
  {
    var mask := Pattern(Mask(field).value);
    PatternNumber(Or(And(Pattern(register), Not(mask)), And(ShiftLeft(Pattern(value), field.lsb), mask)));
  }

  lemma ExtractedPattern(register: u16, field: AfeBitField)
    requires WellFormed(field)
    ensures var r := Pattern(ExtractBits(register, field).value);
            forall i :: 0 <= i < 16 ==> r[i] == (i < Width(field) && Pattern(register)[i + field.lsb])
  {
    var mask := Pattern(Mask(field).value);
    PatternNumber(ShiftRight(And(Pattern(register), mask), field.lsb));
  }

  /** A field's value by division. */
  lemma ExtractedNumber(register: u16, field: AfeBitField)
    requires WellFormed(field)
    ensures ExtractBits(register, field) == Ok(register / Pow2(field.lsb) % Pow2(Width(field)))
  {
    assert ExtractBits(register, field).Ok?;
    hide ExtractBits;
    var high := register / Pow2(field.lsb);
    var value := high % Pow2(Width(field));
    QuotientShrinks(register, Pow2(field.lsb));
    QuotientShrinks(high, Pow2(Width(field)));
    ExtractedPattern(register, field);
    forall i | 0 <= i < 16
      ensures Pattern(ExtractBits(register, field).value)[i] == Pattern(value)[i]
    {
      LowBits(16, high, Width(field), i);
      if i < Width(field) {
        HighBits(16, register, field.lsb, i);
      }
    }
    PatternsDiffer(ExtractBits(register, field).value, value);
  }

  lemma PatternsDiffer(v: u16, w: u16)
    requires forall i :: 0 <= i < 16 ==> Pattern(v)[i] == Pattern(w)[i]
    ensures v == w
  {
    assert Pattern(v) == Pattern(w);
    NumberPattern(v);
    NumberPattern(w);
  }

  /** The value fits in the field. */
  predicate Fits(field: AfeBitField, value: u16)
    requires WellFormed(field)
  {
    value < Pow2(Width(field))
  }

  /** Reading a field back returns the value written exactly when it fits, and
      the bits outside the field are kept, also by a value that does not fit. */
  lemma ExtractAfterReplace(register: u16, field: AfeBitField, value: u16)
    requires WellFormed(field)
    ensures ExtractBits(ReplaceBits(register, field, value).value, field) == Ok(value) <==> Fits(field, value)
    ensures forall i :: 0 <= i < 16 && !(field.lsb <= i <= field.msb) ==>
      Pattern(ReplaceBits(register, field, value).value)[i] == Pattern(register)[i]
  {
    var updated := ReplaceBits(register, field, value).value;
    var back := ExtractBits(updated, field).value;
    ReplacedPattern(register, field, value);
    ExtractedPattern(updated, field);
    WordBounds();
    HighBitsClear(16, value, Width(field));
    assert forall i :: 0 <= i < 16 ==> Pattern(back)[i] == (i < Width(field) && Pattern(value)[i]);
    if Fits(field, value) {
      PatternsDiffer(back, value);
    }
  }

  predicate Disjoint(f: AfeBitField, g: AfeBitField) {
    f.register != g.register || f.msb < g.lsb || g.msb < f.lsb
  }

  /** A write to one field leaves a disjoint field of the register alone, and
      two such writes commute. */
  lemma DisjointFieldsCommute(register: u16, f: AfeBitField, x: u16, g: AfeBitField, y: u16)
    requires WellFormed(f) && WellFormed(g) && f.register == g.register && Disjoint(f, g)
    ensures ExtractBits(ReplaceBits(register, f, x).value, g) == ExtractBits(register, g)
    ensures ReplaceBits(ReplaceBits(register, f, x).value, g, y)
         == ReplaceBits(ReplaceBits(register, g, y).value, f, x)
  {
    var a, c := ReplaceBits(register, f, x).value, ReplaceBits(register, g, y).value;
    ReplacedPattern(register, f, x);
    ReplacedPattern(register, g, y);
    ReplacedPattern(a, g, y);
    ReplacedPattern(c, f, x);
    ExtractedPattern(a, g);
    ExtractedPattern(register, g);
    PatternsDiffer(ExtractBits(a, g).value, ExtractBits(register, g).value);
    PatternsDiffer(ReplaceBits(a, g, y).value, ReplaceBits(c, f, x).value);
  }

  // ---------- the dictionary, column by column ----------

  const FUNCTION_COUNT: nat := 92

  /** The one malformed row: its most significant bit is below its least. */
  const LVDS_OUTPUT_RATE_2X: nat := 8

  function RowName(i: nat): string
    requires i < FUNCTION_COUNT
  {
    match i
    case 0 => "SOFTWARE_RESET"
    case 1 => "REGISTER_READOUT_ENABLE"
    case 2 => "ADC_COMPLETE_PDN"
    case 3 => "LVDS_OUTPUT_DISABLE"
    case 4 => "ADC_PDN_CH"
    case 5 => "PARTIAL_PDN"
    case 6 => "LOW_FREQUENCY_NOISE_SUPPRESSION"
    case 7 => "EXT_REF"
    case 8 => "LVDS_OUTPUT_RATE_2X"
    case 9 => "SINGLE-ENDED_CLK_MODE"
    case 10 => "POWER-DOWN_LVDS"
    case 11 => "AVERAGING_ENABLE"
    case 12 => "LOW_LATENCY"
    case 13 => "TEST_PATTERN_MODES"
    case 14 => "INVERT_CHANNELS"
    case 15 => "CHANNEL_OFFSET_SUBSTRACTION_ENABLE"
    case 16 => "DIGITAL_GAIN_ENABLE"
    case 17 => "SERIALIZED_DATA_RATE"
    case 18 => "ENABLE_EXTERNAL_REFERENCE_MODE"
    case 19 => "ADC_RESOLUTION_RESET"
    case 20 => "ADC_OUTPUT_FORMAT"
    case 21 => "LSB_MSB_FIRST"
    case 22 => "CUSTOM_PATTERN"
    case 23 => "SYNC_PATTERN"
    case 24 => "OFFSET_CH1"
    case 25 => "DIGITAL_GAIN_CH1"
    case 26 => "OFFSET_CH2"
    case 27 => "DIGITAL_GAIN_CH2"
    case 28 => "OFFSET_CH3"
    case 29 => "DIGITAL_GAIN_CH3"
    case 30 => "OFFSET_CH4"
    case 31 => "DIGITAL_GAIN_CH4"
    case 32 => "DIGITAL_HPF_FILTER_ENABLE_CH1-4"
    case 33 => "DIGITAL_HPF_FILTER_K_CH1-4"
    case 34 => "OFFSET_CH8"
    case 35 => "DIGITAL_GAIN_CH8"
    case 36 => "OFFSET_CH7"
    case 37 => "DIGITAL_GAIN_CH7"
    case 38 => "OFFSET_CH6"
    case 39 => "DIGITAL_GAIN_CH6"
    case 40 => "OFFSET_CH5"
    case 41 => "DIGITAL_GAIN_CH5"
    case 42 => "DIGITAL_HPF_FILTER_ENABLE_CH5-8"
    case 43 => "DIGITAL_HPF_FILTER_K_CH5-8"
    case 44 => "DITHER"
    case 45 => "PGA_CLAMP_-6dB"
    case 46 => "LPF_PROGRAMMABILITY"
    case 47 => "PGA_INTEGRATOR_DISABLE"
    case 48 => "PGA_CLAMP_LEVEL"
    case 49 => "PGA_GAIN_CONTROL"
    case 50 => "ACTIVE_TERMINATION_INDIVIDUAL_RESISTOR_CNTL"
    case 51 => "ACTIVE_TERMINATION_INDIVIDUAL_RESISTOR_ENABLE"
    case 52 => "PRESET_ACTIVE_TERMINATIONS"
    case 53 => "ACTIVE_TERMINATION_ENABLE"
    case 54 => "LNA_INPUT_CLAMP_SETTING"
    case 55 => "LNA_INTEGRATOR_DISABLE"
    case 56 => "LNA_GAIN"
    case 57 => "LNA_INDIVIDUAL_CH_CNTL"
    case 58 => "PDN_CH"
    case 59 => "LOW_POWER"
    case 60 => "MED_POWER"
    case 61 => "PDN_VCAT_PGA"
    case 62 => "PDN_LNA"
    case 63 => "VCA_PARTIAL_PDN"
    case 64 => "VCA_COMPLETE_PDN"
    case 65 => "CW_SUM_AMP_GAIN_CNTL"
    case 66 => "CW_16X_CLK_SEL"
    case 67 => "CW_1X_CLK_SEL"
    case 68 => "CW_TGC_SEL"
    case 69 => "CW_SUM_AMP_ENABLE"
    case 70 => "CW_CLK_MODE_SEL"
    case 71 => "CH1_CW_MIXER_PHASE"
    case 72 => "CH2_CW_MIXER_PHASE"
    case 73 => "CH3_CW_MIXER_PHASE"
    case 74 => "CH4_CW_MIXER_PHASE"
    case 75 => "CH5_CW_MIXER_PHASE"
    case 76 => "CH6_CW_MIXER_PHASE"
    case 77 => "CH7_CW_MIXER_PHASE"
    case 78 => "CH8_CW_MIXER_PHASE"
    case 79 => "CH1_LNA_GAIN_CNTL"
    case 80 => "CH2_LNA_GAIN_CNTL"
    case 81 => "CH3_LNA_GAIN_CNTL"
    case 82 => "CH4_LNA_GAIN_CNTL"
    case 83 => "CH5_LNA_GAIN_CNTL"
    case 84 => "CH6_LNA_GAIN_CNTL"
    case 85 => "CH7_LNA_GAIN_CNTL"
    case 86 => "CH8_LNA_GAIN_CNTL"
    case 87 => "HPF_LNA"
    case 88 => "DIG_TGC_ATT_GAIN"
    case 89 => "DIG_TGC_ATT"
    case 90 => "CW_SUM_AMP_PDN"
    case _ => "PGA_TEST_MODE"
  }

  function RowField(i: nat): (field: AfeBitField)
    requires i < FUNCTION_COUNT
    ensures WellFormed(field) <==> i != LVDS_OUTPUT_RATE_2X
    ensures field.register < 0x100
  {
    match i
    case 0 => AfeBitField(0, 0, 0)
    case 1 => AfeBitField(0, 1, 1)
    case 2 => AfeBitField(1, 0, 0)
    case 3 => AfeBitField(1, 1, 1)
    case 4 => AfeBitField(1, 9, 2)
    case 5 => AfeBitField(1, 10, 10)
    case 6 => AfeBitField(1, 11, 11)
    case 7 => AfeBitField(1, 13, 13)
    case 8 => AfeBitField(1, 12, 14)
    case 9 => AfeBitField(1, 15, 15)
    case 10 => AfeBitField(2, 10, 3)
    case 11 => AfeBitField(2, 11, 11)
    case 12 => AfeBitField(2, 12, 12)
    case 13 => AfeBitField(2, 15, 13)
    case 14 => AfeBitField(3, 7, 0)
    case 15 => AfeBitField(3, 8, 8)
    case 16 => AfeBitField(3, 12, 12)
    case 17 => AfeBitField(3, 14, 13)
    case 18 => AfeBitField(3, 15, 15)
    case 19 => AfeBitField(4, 1, 1)
    case 20 => AfeBitField(4, 3, 3)
    case 21 => AfeBitField(4, 4, 4)
    case 22 => AfeBitField(5, 13, 0)
    case 23 => AfeBitField(10, 8, 8)
    case 24 => AfeBitField(13, 9, 0)
    case 25 => AfeBitField(13, 15, 11)
    case 26 => AfeBitField(15, 9, 0)
    case 27 => AfeBitField(15, 15, 11)
    case 28 => AfeBitField(17, 9, 0)
    case 29 => AfeBitField(17, 15, 11)
    case 30 => AfeBitField(19, 9, 0)
    case 31 => AfeBitField(19, 15, 11)
    case 32 => AfeBitField(21, 0, 0)
    case 33 => AfeBitField(21, 4, 1)
    case 34 => AfeBitField(25, 9, 0)
    case 35 => AfeBitField(25, 15, 11)
    case 36 => AfeBitField(27, 9, 0)
    case 37 => AfeBitField(27, 15, 11)
    case 38 => AfeBitField(29, 9, 0)
    case 39 => AfeBitField(29, 15, 11)
    case 40 => AfeBitField(31, 9, 0)
    case 41 => AfeBitField(31, 15, 11)
    case 42 => AfeBitField(33, 0, 0)
    case 43 => AfeBitField(33, 4, 1)
    case 44 => AfeBitField(66, 15, 15)
    case 45 => AfeBitField(50, 10, 10)
    case 46 => AfeBitField(51, 3, 1)
    case 47 => AfeBitField(51, 4, 4)
    case 48 => AfeBitField(51, 7, 5)
    case 49 => AfeBitField(51, 13, 13)
    case 50 => AfeBitField(52, 4, 0)
    case 51 => AfeBitField(52, 5, 5)
    case 52 => AfeBitField(52, 7, 6)
    case 53 => AfeBitField(52, 8, 8)
    case 54 => AfeBitField(52, 10, 9)
    case 55 => AfeBitField(52, 12, 12)
    case 56 => AfeBitField(52, 14, 13)
    case 57 => AfeBitField(52, 15, 15)
    case 58 => AfeBitField(53, 7, 0)
    case 59 => AfeBitField(53, 10, 10)
    case 60 => AfeBitField(53, 11, 11)
    case 61 => AfeBitField(53, 12, 12)
    case 62 => AfeBitField(53, 13, 13)
    case 63 => AfeBitField(53, 14, 14)
    case 64 => AfeBitField(53, 15, 15)
    case 65 => AfeBitField(54, 4, 0)
    case 66 => AfeBitField(54, 5, 5)
    case 67 => AfeBitField(54, 6, 6)
    case 68 => AfeBitField(54, 8, 8)
    case 69 => AfeBitField(54, 9, 9)
    case 70 => AfeBitField(54, 11, 10)
    case 71 => AfeBitField(55, 3, 0)
    case 72 => AfeBitField(55, 7, 4)
    case 73 => AfeBitField(55, 11, 8)
    case 74 => AfeBitField(55, 15, 12)
    case 75 => AfeBitField(56, 3, 0)
    case 76 => AfeBitField(56, 7, 4)
    case 77 => AfeBitField(56, 11, 8)
    case 78 => AfeBitField(56, 15, 12)
    case 79 => AfeBitField(57, 1, 0)
    case 80 => AfeBitField(57, 3, 2)
    case 81 => AfeBitField(57, 5, 4)
    case 82 => AfeBitField(57, 7, 6)
    case 83 => AfeBitField(57, 9, 8)
    case 84 => AfeBitField(57, 11, 10)
    case 85 => AfeBitField(57, 13, 12)
    case 86 => AfeBitField(57, 15, 14)
    case 87 => AfeBitField(59, 3, 2)
    case 88 => AfeBitField(59, 6, 4)
    case 89 => AfeBitField(59, 7, 7)
    case 90 => AfeBitField(59, 8, 8)
    case _ => AfeBitField(59, 9, 9)
  }

  function RowValues(i: nat): AfeFunctionValues
    requires i < FUNCTION_COUNT
  {
    match i
    case 0 => Range(0, 1)
    case 1 => Range(0, 1)
    case 2 => Range(0, 1)
    case 3 => Range(0, 1)
    case 4 => Range(0, 0xFF)
    case 5 => Range(0, 1)
    case 6 => Range(0, 1)
    case 7 => Range(0, 1)
    case 8 => Range(0, 1)
    case 9 => Range(0, 1)
    case 10 => Range(0, 1)
    case 11 => Range(0, 1)
    case 12 => Range(0, 1)
    case 13 => Range(0, 0x7)
    case 14 => Range(0, 0xFF)
    case 15 => Range(0, 1)
    case 16 => Range(0, 1)
    case 17 => Range(0, 0x3)
    case 18 => Range(0, 1)
    case 19 => Range(0, 1)
    case 20 => Range(0, 1)
    case 21 => Range(0, 1)
    case 22 => Range(0, 0x3FFF)
    case 23 => Range(0, 1)
    case 24 => Range(0, 0x3FF)
    case 25 => Range(0, 0x1F)
    case 26 => Range(0, 0x3FF)
    case 27 => Range(0, 0x1F)
    case 28 => Range(0, 0x3FF)
    case 29 => Range(0, 0x1F)
    case 30 => Range(0, 0x3FF)
    case 31 => Range(0, 0x1F)
    case 32 => Range(0, 1)
    case 33 => Range(2, 10)
    case 34 => Range(0, 0x3FF)
    case 35 => Range(0, 0x1F)
    case 36 => Range(0, 0x3FF)
    case 37 => Range(0, 0x1F)
    case 38 => Range(0, 0x3FF)
    case 39 => Range(0, 0x1F)
    case 40 => Range(0, 0x3FF)
    case 41 => Range(0, 0x1F)
    case 42 => Range(0, 1)
    case 43 => Range(2, 10)
    case 44 => Range(0, 1)
    case 45 => Range(0, 1)
    case 46 => Options([0, 2, 3, 4])
    case 47 => Range(0, 1)
    case 48 => Range(0, 7)
    case 49 => Range(0, 1)
    case 50 => Range(0, 0x1F)
    case 51 => Range(0, 1)
    case 52 => Range(0, 3)
    case 53 => Range(0, 1)
    case 54 => Range(0, 3)
    case 55 => Range(0, 1)
    case 56 => Range(0, 3)
    case 57 => Range(0, 1)
    case 58 => Range(0, 0xFF)
    case 59 => Range(0, 1)
    case 60 => Range(0, 1)
    case 61 => Range(0, 1)
    case 62 => Range(0, 1)
    case 63 => Range(0, 1)
    case 64 => Range(0, 1)
    case 65 => Options([0, 1, 2, 4, 8, 16])
    case 66 => Range(0, 1)
    case 67 => Range(0, 1)
    case 68 => Range(0, 1)
    case 69 => Range(0, 1)
    case 70 => Range(0, 3)
    case 71 => Range(0, 0xF)
    case 72 => Range(0, 0xF)
    case 73 => Range(0, 0xF)
    case 74 => Range(0, 0xF)
    case 75 => Range(0, 0xF)
    case 76 => Range(0, 0xF)
    case 77 => Range(0, 0xF)
    case 78 => Range(0, 0xF)
    case 79 => Range(0, 3)
    case 80 => Range(0, 3)
    case 81 => Range(0, 3)
    case 82 => Range(0, 3)
    case 83 => Range(0, 3)
    case 84 => Range(0, 3)
    case 85 => Range(0, 3)
    case 86 => Range(0, 3)
    case 87 => Range(0, 3)
    case 88 => Range(0, 0x7)
    case 89 => Range(0, 1)
    case 90 => Range(0, 1)
    case _ => Range(0, 1)
  }

  /** Row `i` of AFE_FUNCTIONS, in the source's order. */
  function Row(i: nat): AfeFunctionSpec
    requires i < FUNCTION_COUNT
  {
    AfeFunctionSpec(RowName(i), RowField(i), RowValues(i))
  }

  lemma SmallPowers()
    ensures Pow2(1) == 2 && Pow2(2) == 4 && Pow2(3) == 8 && Pow2(4) == 16 && Pow2(5) == 32
    ensures Pow2(8) == 0x100 && Pow2(10) == 0x400 && Pow2(14) == 0x4000
  {
    WordBounds();
    assert Pow2(5) == 32;
    assert Pow2(10) == 0x400;
  }

  predicate WidthBound(width: nat, bound: nat) {
    match width
    case 1 => bound == 2
    case 2 => bound == 4
    case 3 => bound == 8
    case 4 => bound == 16
    case 5 => bound == 32
    case 8 => bound == 0x100
    case 10 => bound == 0x400
    case 14 => bound == 0x4000
    case _ => false
  }

  lemma RowWidth(i: nat)
    requires i < FUNCTION_COUNT && i != LVDS_OUTPUT_RATE_2X
    ensures Width(RowField(i)) in {1, 2, 3, 4, 5, 8, 10, 14}
  {}

  lemma RowBound(i: nat, value: u16, bound: nat)
    requires i < FUNCTION_COUNT && i != LVDS_OUTPUT_RATE_2X && RowValues(i).Contains(value)
    requires WidthBound(Width(RowField(i)), bound)
    ensures value < bound
  {}

  /** Every value a row allows fits in the row's field. */
  lemma AllowedValuesFit(i: nat, value: u16)
    requires i < FUNCTION_COUNT && i != LVDS_OUTPUT_RATE_2X && RowValues(i).Contains(value)
    ensures Fits(RowField(i), value)
  {
    RowWidth(i);
    SmallPowers();
    var width := Width(RowField(i));
    assert WidthBound(width, Pow2(width));
    RowBound(i, value, Pow2(width));
  }

  // ---------- lookup by name ----------

  /** The first row from `i` on with the given name. */
  function FindFrom(name: string, i: nat): (r: Option<nat>)
    requires i <= FUNCTION_COUNT
    ensures r.Some? ==> i <= r.value < FUNCTION_COUNT
    decreases FUNCTION_COUNT - i
  {
    if i == FUNCTION_COUNT then None
    else if RowName(i) == name then Some(i)
    else FindFrom(name, i + 1)
  }

  function FindAfeFunction(name: string): Option<AfeFunctionSpec> {
    match FindFrom(name, 0) case None => None case Some(k) => Some(Row(k))
  }

  function ValidateAfeFunctionValue(name: string, value: u16): Result<AfeFunctionSpec, AfeFunctionError> {
    match FindAfeFunction(name)
    case None => Err(UnknownName)
    case Some(spec) => if spec.values.Contains(value) then Ok(spec) else Err(InvalidValue)
  }

  lemma {:induction false} FirstRowFound(name: string, i: nat, k: nat)
    requires i <= k < FUNCTION_COUNT && RowName(k) == name
    requires forall j :: i <= j < k ==> RowName(j) != name
    ensures FindFrom(name, i) == Some(k)
    decreases k - i
  {
    hide RowName;
    if i < k {
      FirstRowFound(name, i + 1, k);
    }
  }

  lemma {:induction false} FoundRowNamed(name: string, i: nat)
    requires i <= FUNCTION_COUNT && FindFrom(name, i).Some?
    ensures RowName(FindFrom(name, i).value) == name
    decreases FUNCTION_COUNT - i
  {
    hide RowName;
    if RowName(i) != name {
      FoundRowNamed(name, i + 1);
    }
  }

  /** A value validates for a name exactly if the first row of that name allows
      it. */
  lemma ValidatedExactly(name: string, value: u16, spec: AfeFunctionSpec)
    ensures ValidateAfeFunctionValue(name, value) == Ok(spec) <==>
      exists k :: 0 <= k < FUNCTION_COUNT && FirstNamed(name, k) && spec == Row(k) && RowValues(k).Contains(value)
  {
    hide RowName, RowField, RowValues, FindFrom;
    if FindFrom(name, 0).Some? {
      FoundRowNamed(name, 0);
      FoundRowFirst(name, 0);
      assert FirstNamed(name, FindFrom(name, 0).value);
    }
    forall k | 0 <= k < FUNCTION_COUNT && FirstNamed(name, k) ensures FindFrom(name, 0) == Some(k) {
      FirstRowFound(name, 0, k);
    }
  }

  predicate FirstNamed(name: string, k: nat)
    requires k < FUNCTION_COUNT
  {
    RowName(k) == name && forall j :: 0 <= j < k ==> RowName(j) != name
  }

  lemma {:induction false} FoundRowFirst(name: string, i: nat)
    requires i <= FUNCTION_COUNT && FindFrom(name, i).Some?
    ensures forall j :: i <= j < FindFrom(name, i).value ==> RowName(j) != name
    decreases FUNCTION_COUNT - i
  {
    hide RowName;
    if RowName(i) != name {
      FoundRowFirst(name, i + 1);
    }
  }

  /** The rows of the channels, numbered from 1, lie regularly: offset and gain of
      a channel share a register, four channels on from register 13 and four down
      to register 25; mixer phases and LNA gains are packed in channel order. */
  lemma ChannelRows(k: nat)
    requires 1 <= k <= 8
    ensures var row, register := if k <= 4 then 22 + 2 * k else 50 - 2 * k, if k <= 4 then 11 + 2 * k else 41 - 2 * k;
      RowField(row) == AfeBitField(register, 9, 0) && RowField(row + 1) == AfeBitField(register, 15, 11)
    ensures RowField(70 + k) == AfeBitField(55 + (k - 1) / 4, 4 * ((k - 1) % 4) + 3, 4 * ((k - 1) % 4))
    ensures RowField(78 + k) == AfeBitField(57, 2 * k - 1, 2 * k - 2)
  {
    hide RowField;
    OffsetRows(k);
    PhaseRows(k);
    GainRows(k);
  }

  lemma OffsetRows(k: nat)
    requires 1 <= k <= 8
    ensures var row, register := if k <= 4 then 22 + 2 * k else 50 - 2 * k, if k <= 4 then 11 + 2 * k else 41 - 2 * k;
      RowField(row) == AfeBitField(register, 9, 0) && RowField(row + 1) == AfeBitField(register, 15, 11)
  {}

  lemma PhaseRows(k: nat)
    requires 1 <= k <= 8
    ensures RowField(70 + k) == AfeBitField(55 + (k - 1) / 4, 4 * ((k - 1) % 4) + 3, 4 * ((k - 1) % 4))
  {}

  lemma GainRows(k: nat)
    requires 1 <= k <= 8
    ensures RowField(78 + k) == AfeBitField(57, 2 * k - 1, 2 * k - 2)
  {}

  /** `f` lies before `g`: in a lower register, or below it in the same. */
  predicate Before(f: AfeBitField, g: AfeBitField) {
    f.register < g.register || (f.register == g.register && f.msb < g.lsb)
  }

  /** The one row that is out of order: DITHER, in the highest register of all. */
  const DITHER: nat := 44

  /** The rows follow registers and bits upwards. */
  lemma RowsAscend(i: nat)
    requires i + 1 < FUNCTION_COUNT && i != DITHER
    ensures Before(RowField(i), RowField(i + 1))
  {
    hide RowField;
    if i < 24 {
      AdcRowsAscend(i);
    } else if i < DITHER {
      ChannelRowsAscend(i);
    } else if i < 70 {
      VcaRowsAscend(i);
    } else {
      CwRowsAscend(i);
    }
  }

  lemma AdcRowsAscend(i: nat)
    requires i < 24
    ensures Before(RowField(i), RowField(i + 1))
  {}

  lemma ChannelRowsAscend(i: nat)
    requires 24 <= i < DITHER
    ensures Before(RowField(i), RowField(i + 1))
  {}

  lemma VcaRowsAscend(i: nat)
    requires DITHER < i < 70
    ensures Before(RowField(i), RowField(i + 1))
  {}

  lemma CwRowsAscend(i: nat)
    requires 70 <= i && i + 1 < FUNCTION_COUNT
    ensures Before(RowField(i), RowField(i + 1))
  {}

  lemma OddRows(i: nat)
    requires i < FUNCTION_COUNT
    ensures i != DITHER ==> RowField(i).register < RowField(DITHER).register
    ensures Before(RowField(LVDS_OUTPUT_RATE_2X - 1), RowField(LVDS_OUTPUT_RATE_2X + 1))
    ensures Before(RowField(DITHER - 1), RowField(DITHER + 1))
  {}

  lemma {:induction false} RowsApart(i: nat, j: nat)
    requires i < j < FUNCTION_COUNT && i != LVDS_OUTPUT_RATE_2X && j != LVDS_OUTPUT_RATE_2X
    requires i != DITHER && j != DITHER
    ensures Before(RowField(i), RowField(j))
    decreases j - i
  {
    hide RowField;
    OddRows(i);
    var k := if j - 1 == LVDS_OUTPUT_RATE_2X || j - 1 == DITHER then j - 2 else j - 1;
    if k == j - 1 {
      RowsAscend(k);
    }
    if i < k {
      RowsApart(i, k);
      assert WellFormed(RowField(k));
    }
  }

  /** No two functions that can be written share a bit. */
  lemma RowsDisjoint(i: nat, j: nat)
    requires i < FUNCTION_COUNT && j < FUNCTION_COUNT && i != j
    requires i != LVDS_OUTPUT_RATE_2X && j != LVDS_OUTPUT_RATE_2X
    ensures Disjoint(RowField(i), RowField(j))
  {
    hide RowField;
    OddRows(i);
    OddRows(j);
    if i != DITHER && j != DITHER {
      RowsApart(if i < j then i else j, if i < j then j else i);
    }
  }

  lemma FindLvdsOutputRate()
    ensures FindFrom("LVDS_OUTPUT_RATE_2X", 0) == Some(LVDS_OUTPUT_RATE_2X)
  {
    forall j | 0 <= j < 8 ensures RowName(j) != "LVDS_OUTPUT_RATE_2X" {}
    FirstRowFound("LVDS_OUTPUT_RATE_2X", 0, 8);
  }

  /** The field of a validated function can be written if and only if the
      function is not LVDS_OUTPUT_RATE_2X, which validates for 0 and 1. */
  lemma WellFormedExactly(name: string, value: u16)
    ensures ValidateAfeFunctionValue(name, value).Ok? ==>
      (WellFormed(ValidateAfeFunctionValue(name, value).value.field) <==> name != "LVDS_OUTPUT_RATE_2X")
    ensures ValidateAfeFunctionValue("LVDS_OUTPUT_RATE_2X", value).Ok? <==> value <= 1
  {
    hide RowName, FindFrom;
    FindLvdsOutputRate();
    FoundRowNamed("LVDS_OUTPUT_RATE_2X", 0);
    if FindFrom(name, 0).Some? {
      FoundRowNamed(name, 0);
    }
  }

  /** A validated function reads back what it wrote, but for the one whose
      write is refused. */
  lemma ValidatedFunctionReadsBack(register: u16, name: string, value: u16)
    requires ValidateAfeFunctionValue(name, value).Ok?
    ensures var field := ValidateAfeFunctionValue(name, value).value.field;
            var updated := ReplaceBits(register, field, value);
            if name == "LVDS_OUTPUT_RATE_2X" then updated == Err(InvalidBitField)
            else updated.Ok? && ExtractBits(updated.value, field) == Ok(value)
  {
    var k := FindFrom(name, 0).value;
    WellFormedExactly(name, value);
    if WellFormed(RowField(k)) {
      AllowedValuesFit(k, value);
      ExtractAfterReplace(register, RowField(k), value);
    }
  }

  // ---------- the functions a frontend configuration writes ----------

  lemma FindSerializedDataRate()
    ensures FindFrom("SERIALIZED_DATA_RATE", 0) == Some(17)
  {
    forall j | 0 <= j < 17 ensures RowName(j) != "SERIALIZED_DATA_RATE" {}
    FirstRowFound("SERIALIZED_DATA_RATE", 0, 17);
  }

  lemma FindAdcResolutionReset()
    ensures FindFrom("ADC_RESOLUTION_RESET", 0) == Some(19)
  {
    forall j | 0 <= j < 19 ensures RowName(j) != "ADC_RESOLUTION_RESET" {}
    FirstRowFound("ADC_RESOLUTION_RESET", 0, 19);
  }

  lemma FindAdcOutputFormat()
    ensures FindFrom("ADC_OUTPUT_FORMAT", 0) == Some(20)
  {
    forall j | 0 <= j < 20 ensures RowName(j) != "ADC_OUTPUT_FORMAT" {}
    FirstRowFound("ADC_OUTPUT_FORMAT", 0, 20);
  }

  lemma FindLsbMsbFirst()
    ensures FindFrom("LSB_MSB_FIRST", 0) == Some(21)
  {
    forall j | 0 <= j < 21 ensures RowName(j) != "LSB_MSB_FIRST" {}
    FirstRowFound("LSB_MSB_FIRST", 0, 21);
  }

  lemma FindLpfProgrammability()
    ensures FindFrom("LPF_PROGRAMMABILITY", 0) == Some(46)
  {
    forall j | 0 <= j < 46 ensures RowName(j) != "LPF_PROGRAMMABILITY" {}
    FirstRowFound("LPF_PROGRAMMABILITY", 0, 46);
  }

  lemma FindPgaIntegratorDisable()
    ensures FindFrom("PGA_INTEGRATOR_DISABLE", 0) == Some(47)
  {
    forall j | 0 <= j < 47 ensures RowName(j) != "PGA_INTEGRATOR_DISABLE" {}
    FirstRowFound("PGA_INTEGRATOR_DISABLE", 0, 47);
  }

  lemma FindPgaClampLevel()
    ensures FindFrom("PGA_CLAMP_LEVEL", 0) == Some(48)
  {
    forall j | 0 <= j < 48 ensures RowName(j) != "PGA_CLAMP_LEVEL" {}
    FirstRowFound("PGA_CLAMP_LEVEL", 0, 48);
  }

  lemma FindPgaGainControl()
    ensures FindFrom("PGA_GAIN_CONTROL", 0) == Some(49)
  {
    forall j | 0 <= j < 49 ensures RowName(j) != "PGA_GAIN_CONTROL" {}
    FirstRowFound("PGA_GAIN_CONTROL", 0, 49);
  }

  lemma FindActiveTerminationEnable()
    ensures FindFrom("ACTIVE_TERMINATION_ENABLE", 0) == Some(53)
  {
    forall j | 0 <= j < 53 ensures RowName(j) != "ACTIVE_TERMINATION_ENABLE" {}
    FirstRowFound("ACTIVE_TERMINATION_ENABLE", 0, 53);
  }

  lemma FindLnaInputClampSetting()
    ensures FindFrom("LNA_INPUT_CLAMP_SETTING", 0) == Some(54)
  {
    forall j | 0 <= j < 54 ensures RowName(j) != "LNA_INPUT_CLAMP_SETTING" {}
    FirstRowFound("LNA_INPUT_CLAMP_SETTING", 0, 54);
  }

  lemma FindLnaIntegratorDisable()
    ensures FindFrom("LNA_INTEGRATOR_DISABLE", 0) == Some(55)
  {
    forall j | 0 <= j < 55 ensures RowName(j) != "LNA_INTEGRATOR_DISABLE" {}
    FirstRowFound("LNA_INTEGRATOR_DISABLE", 0, 55);
  }

  lemma FindLnaGain()
    ensures FindFrom("LNA_GAIN", 0) == Some(56)
  {
    forall j | 0 <= j < 56 ensures RowName(j) != "LNA_GAIN" {}
    FirstRowFound("LNA_GAIN", 0, 56);
  }
}
