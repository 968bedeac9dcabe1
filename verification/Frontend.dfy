/** The frontend as commands change it: cached values together with what the
    devices hold, and the meaning of a staged configuration
    (crates/daphne-sc-rpu/src/mmio.rs, lines 401-510 and 661-797). */
module Frontend {
  import opened Words
  import opened AfeFunctions
  import opened Board
  import opened Records

  // ---------- AFE register files ----------

  datatype FieldValue = FieldValue(name: string, value: u16)

  predicate Writable(w: FieldValue) {
    var spec := ValidateAfeFunctionValue(w.name, w.value);
    spec.Ok? && WellFormed(spec.value.field)
  }

  /** Every validated function but one can be written. */
  lemma WritableExactly(w: FieldValue)
    ensures Writable(w) <==> ValidateAfeFunctionValue(w.name, w.value).Ok? && w.name != "LVDS_OUTPUT_RATE_2X"
  {
    hide ValidateAfeFunctionValue;
    WellFormedExactly(w.name, w.value);
  }

  function FieldOf(w: FieldValue): AfeBitField
    requires Writable(w)
    ensures WellFormed(FieldOf(w)) && FieldOf(w).register < 0x100
  {
    ValidateAfeFunctionValue(w.name, w.value).value.field
  }

  /** The register file after a function write. Register 0 cannot be set this
      way: the idle word that ends the transaction clears it. */
  function WriteField(file: RegisterFile, w: FieldValue): RegisterFile
    requires Writable(w)
  {
    var field := FieldOf(w);
    if field.register == 0 then file
    else file[field.register := ReplaceBits(file[field.register], field, w.value).value]
  }

  function WriteFields(file: RegisterFile, ws: seq<FieldValue>): RegisterFile
    requires forall w :: w in ws ==> Writable(w)
  {
    if ws == [] then file
    else WriteField(WriteFields(file, ws[..|ws| - 1]), ws[|ws| - 1])
  }

  ghost predicate PairwiseDisjoint(ws: seq<FieldValue>)
    requires forall w :: w in ws ==> Writable(w)
  {
    forall i, j :: 0 <= i < j < |ws| ==> Disjoint(FieldOf(ws[i]), FieldOf(ws[j]))
  }

  /** A later write to a disjoint field leaves an earlier field as it was. */
  lemma WriteFieldKeeps(file: RegisterFile, w: FieldValue, field: AfeBitField)
    requires Writable(w) && WellFormed(field) && field.register < 0x100 && Disjoint(FieldOf(w), field)
    ensures ExtractBits(WriteField(file, w)[field.register], field) == ExtractBits(file[field.register], field)
  {
    var f := FieldOf(w);
    if f.register == field.register && f.register != 0 {
      DisjointFieldsCommute(file[f.register], f, w.value, field, 0);
    }
  }

  /** After writing pairwise disjoint fields every one of them reads back its
      own value. */
  lemma {:induction false} WrittenFieldsReadBack(file: RegisterFile, ws: seq<FieldValue>, i: nat)
    requires forall w :: w in ws ==> Writable(w) && FieldOf(w).register != 0
    requires PairwiseDisjoint(ws) && i < |ws|
    ensures var field := FieldOf(ws[i]);
            ExtractBits(WriteFields(file, ws)[field.register], field) == Ok(ws[i].value)
  {
    var rest, last := ws[..|ws| - 1], ws[|ws| - 1];
    var before := WriteFields(file, rest);
    if i == |ws| - 1 {
      ValidatedFunctionReadsBack(before[FieldOf(last).register], last.name, last.value);
    } else {
      WrittenFieldsReadBack(file, rest, i);
      assert Disjoint(FieldOf(ws[i]), FieldOf(last));
      WriteFieldKeeps(before, last, FieldOf(ws[i]));
    }
  }

  /** A field disjoint from all the fields written keeps its value. */
  lemma {:induction false} OtherFieldsKept(file: RegisterFile, ws: seq<FieldValue>, field: AfeBitField)
    requires forall w :: w in ws ==> Writable(w) && Disjoint(FieldOf(w), field)
    requires WellFormed(field) && field.register < 0x100
    ensures ExtractBits(WriteFields(file, ws)[field.register], field) == ExtractBits(file[field.register], field)
  {
    if ws != [] {
      var rest, last := ws[..|ws| - 1], ws[|ws| - 1];
      OtherFieldsKept(file, rest, field);
      WriteFieldKeeps(WriteFields(file, rest), last, field);
    }
  }

  /** Writing one function leaves every other function's value as it was. */
  lemma OtherFunctionsKept(file: RegisterFile, w: FieldValue, v: FieldValue)
    requires Writable(w) && Writable(v) && w.name != v.name
    ensures Disjoint(FieldOf(w), FieldOf(v))
    ensures ExtractBits(WriteField(file, w)[FieldOf(v).register], FieldOf(v))
         == ExtractBits(file[FieldOf(v).register], FieldOf(v))
  {
    hide RowField, RowName, FindFrom, WriteField, ExtractBits;
    FoundRowNamed(w.name, 0);
    FoundRowNamed(v.name, 0);
    RowsDisjoint(FindFrom(w.name, 0).value, FindFrom(v.name, 0).value);
    WriteFieldKeeps(file, w, FieldOf(v));
  }

  // ---------- the functions a configuration writes ----------

  function Flag16(b: bool): u16 {
    if b then 1 else 0
  }

  function FrontendName(i: nat): string
    requires i < 12
  {
    match i
    case 0 => "SERIALIZED_DATA_RATE"
    case 1 => "ADC_RESOLUTION_RESET"
    case 2 => "ADC_OUTPUT_FORMAT"
    case 3 => "LSB_MSB_FIRST"
    case 4 => "LPF_PROGRAMMABILITY"
    case 5 => "PGA_INTEGRATOR_DISABLE"
    case 6 => "PGA_GAIN_CONTROL"
    case 7 => "PGA_CLAMP_LEVEL"
    case 8 => "ACTIVE_TERMINATION_ENABLE"
    case 9 => "LNA_INPUT_CLAMP_SETTING"
    case 10 => "LNA_GAIN"
    case _ => "LNA_INTEGRATOR_DISABLE"
  }

  function FrontendValue(c: AfeRecord, i: nat): u16
    requires i < 12
  {
    match i
    case 0 => 1
    case 1 => Flag16(c.adc.resolution)
    case 2 => Flag16(c.adc.outputFormat)
    case 3 => Flag16(c.adc.msbFirst)
    case 4 => c.pga.lpfCutFrequency
    case 5 => Flag16(c.pga.integratorDisable)
    case 6 => Flag16(c.pga.gain)
    case 7 => 2
    case 8 => 0
    case 9 => c.lna.clamp
    case 10 => c.lna.gain
    case _ => Flag16(c.lna.integratorDisable)
  }

  function FrontendWrite(c: AfeRecord, i: nat): FieldValue
    requires i < 12
  {
    FieldValue(FrontendName(i), FrontendValue(c, i))
  }

  /** The twelve function writes of one AFE record, in order. */
  function FrontendFields(c: AfeRecord): (ws: seq<FieldValue>)
    ensures |ws| == 12
  {
    seq(12, i requires 0 <= i < 12 => FrontendWrite(c, i))
  }

  function FrontendField(i: nat): AfeBitField
    requires i < 12
  {
    match i
    case 0 => AfeBitField(3, 14, 13)
    case 1 => AfeBitField(4, 1, 1)
    case 2 => AfeBitField(4, 3, 3)
    case 3 => AfeBitField(4, 4, 4)
    case 4 => AfeBitField(51, 3, 1)
    case 5 => AfeBitField(51, 4, 4)
    case 6 => AfeBitField(51, 13, 13)
    case 7 => AfeBitField(51, 7, 5)
    case 8 => AfeBitField(52, 8, 8)
    case 9 => AfeBitField(52, 10, 9)
    case 10 => AfeBitField(52, 14, 13)
    case _ => AfeBitField(52, 12, 12)
  }

  lemma FrontendFieldsDisjoint(i: nat, j: nat)
    requires i < j < 12
    ensures Disjoint(FrontendField(i), FrontendField(j))
  {}

  /** The request's own values are ones the dictionary allows. */
  predicate FunctionsInRange(c: AfeRecord) {
    c.pga.lpfCutFrequency in {0, 2, 3, 4} && c.lna.clamp <= 3 && c.lna.gain <= 3
  }

  /** The row of the dictionary that write `i` of a configuration uses. */
  function FrontendRow(i: nat): (k: nat)
    requires i < 12
    ensures k < FUNCTION_COUNT && k != LVDS_OUTPUT_RATE_2X && RowField(k) == FrontendField(i)
  {
    match i
    case 0 => 17 case 1 => 19 case 2 => 20 case 3 => 21
    case 4 => 46 case 5 => 47 case 6 => 49 case 7 => 48 case 8 => 53
    case 9 => 54 case 10 => 56 case _ => 55
  }

  lemma RowWritable(w: FieldValue, k: nat)
    requires k < FUNCTION_COUNT && k != LVDS_OUTPUT_RATE_2X && FindFrom(w.name, 0) == Some(k)
    ensures Writable(w) <==> RowValues(k).Contains(w.value)
    ensures Writable(w) ==> FieldOf(w) == RowField(k)
  {}

  lemma AdcRowFound(i: nat)
    requires i < 4
    ensures FindFrom(FrontendName(i), 0) == Some(FrontendRow(i))
  {
    hide FindFrom, RowName;
    match i
    case 0 => FindSerializedDataRate();
    case 1 => FindAdcResolutionReset();
    case 2 => FindAdcOutputFormat();
    case _ => FindLsbMsbFirst();
  }

  lemma PgaRowFound(i: nat)
    requires 4 <= i < 9
    ensures FindFrom(FrontendName(i), 0) == Some(FrontendRow(i))
  {
    hide FindFrom, RowName;
    match i
    case 4 => FindLpfProgrammability();
    case 5 => FindPgaIntegratorDisable();
    case 6 => FindPgaGainControl();
    case 7 => FindPgaClampLevel();
    case _ => FindActiveTerminationEnable();
  }

  lemma LnaRowFound(i: nat)
    requires 9 <= i < 12
    ensures FindFrom(FrontendName(i), 0) == Some(FrontendRow(i))
  {
    hide FindFrom, RowName;
    match i
    case 9 => FindLnaInputClampSetting();
    case 10 => FindLnaGain();
    case _ => FindLnaIntegratorDisable();
  }

  lemma FrontendWriteAllowed(c: AfeRecord, i: nat)
    requires i < 12
    ensures Writable(FrontendWrite(c, i)) <==> RowValues(FrontendRow(i)).Contains(FrontendValue(c, i))
    ensures Writable(FrontendWrite(c, i)) ==> FieldOf(FrontendWrite(c, i)) == FrontendField(i)
  {
    if i < 4 {
      AdcRowFound(i);
    } else if i < 9 {
      PgaRowFound(i);
    } else {
      LnaRowFound(i);
    }
    RowWritable(FrontendWrite(c, i), FrontendRow(i));
  }

  lemma FrontendValueAllowed(c: AfeRecord, i: nat)
    requires i < 12
    ensures RowValues(FrontendRow(i)).Contains(FrontendValue(c, i)) <==>
      (match i
       case 4 => c.pga.lpfCutFrequency in {0, 2, 3, 4}
       case 9 => c.lna.clamp <= 3
       case 10 => c.lna.gain <= 3
       case _ => true)
  {}

  /** The twelve writes are all allowed exactly when the three numeric values
      are in range, and then they go to twelve disjoint fields. */
  lemma FrontendWritesAllowed(c: AfeRecord)
    ensures FunctionsInRange(c) <==> forall w :: w in FrontendFields(c) ==> Writable(w)
    ensures FunctionsInRange(c) ==> forall i :: 0 <= i < 12 ==>
      FieldOf(FrontendFields(c)[i]) == FrontendField(i)
    ensures FunctionsInRange(c) ==> PairwiseDisjoint(FrontendFields(c))
  {
    var ws := FrontendFields(c);
    forall i | 0 <= i < 12
      ensures Writable(ws[i]) <==> RowValues(FrontendRow(i)).Contains(FrontendValue(c, i))
      ensures Writable(ws[i]) ==> FieldOf(ws[i]) == FrontendField(i)
      ensures FunctionsInRange(c) ==> Writable(ws[i])
    {
      FrontendWriteAllowed(c, i);
      FrontendValueAllowed(c, i);
    }
    FrontendValueAllowed(c, 4);
    FrontendValueAllowed(c, 9);
    FrontendValueAllowed(c, 10);
    assert ws[4] in ws && ws[9] in ws && ws[10] in ws;
    if FunctionsInRange(c) {
      forall i, j | 0 <= i < j < 12 ensures Disjoint(FieldOf(ws[i]), FieldOf(ws[j])) {
        FrontendFieldsDisjoint(i, j);
      }
    }
  }
}
