/**
 * The registers, bit positions and field codes the driver takes from ac108.h.
 * That header is not part of this model, so every position and code is a
 * symbolic parameter; `Valid` states the only facts about them the driver's
 * code relies on. Registers are named rather than addressed: the model
 * relies only on the eleven registers having distinct addresses.
 */
module Ac108 {
  import opened Registers

  /** The registers the driver programs, by their ac108.h names. */
  datatype Reg =
    | I2sCtrl       // I2S_CTRL: clock directions, SDO enables, TXEN, GEN
    | I2sBclkCtrl   // I2S_BCLK_CTRL: BCLK divider and polarity
    | I2sLrckCtrl1  // I2S_LRCK_CTRL1: LRCK period bits 9:8 and polarity
    | I2sLrckCtrl2  // I2S_LRCK_CTRL2: LRCK period bits 7:0
    | I2sFmtCtrl1   // I2S_FMT_CTRL1: encoding, mode, offsets, slot state
    | I2sFmtCtrl2   // I2S_FMT_CTRL2: sample resolution and slot width
    | I2sFmtCtrl3   // I2S_FMT_CTRL3: bit order, sign extension, LRCK width, PDM
    | AdcSprc       // ADC_SPRC: ADC sample-rate code
    | HpfEn         // HPF_EN: per-channel high-pass filter enables
    | ModClkEn      // MOD_CLK_EN: module clock enables
    | ModRstCtrl    // MOD_RST_CTRL: module reset de-assertion

  /** The bitfields the driver shifts values into, by their ac108.h names. */
  datatype Field =
    | LrckIoen | Sdo1En | TxEn | Gen
    | BclkDiv | BclkPolarity
    | LrckPolarity
    | EncdSel | ModeSel | Tx2Offset | Tx1Offset | TxSlotHiz | TxState
    | SampleResolution | SlotWidthSel
    | TxMls | Sext | LrckWidth | TxPdm
    | AdcFsI2s1
    | ModI2s | ModAdcDigital | ModMicOffsetCalibration | ModAdcAnalog

  /** Each field's width, read off the mask the driver shifts into place for it. */
  function Width(f: Field): (w: Span)
    ensures w <= 4
  {
    match f
    case LrckIoen => 2           // 0x03 << LRCK_IOEN covers LRCK_IOEN and BCLK_IOEN
    case Sdo1En => 2             // 0x03 << SDO1_EN
    case BclkDiv => 4            // 0x0F << BCLKDIV
    case ModeSel => 2            // 0x03 << MODE_SEL
    case SampleResolution => 3   // 0x07 << SAMPLE_RESOLUTION
    case SlotWidthSel => 3       // 0x07 << SLOT_WIDTH_SEL
    case Sext => 2               // 0x03 << SEXT
    case TxPdm => 2              // 0x03 << TX_PDM
    case AdcFsI2s1 => 4          // 0x0f << ADC_FS_I2S1
    case _ => 1
  }

  /**
   * The register a field belongs to. The four module bits are used at the same
   * positions in MOD_CLK_EN and in MOD_RST_CTRL; they are filed under the former.
   */
  function RegOf(f: Field): Reg {
    match f
    case LrckIoen | Sdo1En | TxEn | Gen => I2sCtrl
    case BclkDiv | BclkPolarity => I2sBclkCtrl
    case LrckPolarity => I2sLrckCtrl1
    case EncdSel | ModeSel | Tx2Offset | Tx1Offset | TxSlotHiz | TxState => I2sFmtCtrl1
    case SampleResolution | SlotWidthSel => I2sFmtCtrl2
    case TxMls | Sext | LrckWidth | TxPdm => I2sFmtCtrl3
    case AdcFsI2s1 => AdcSprc
    case ModI2s | ModAdcDigital | ModMicOffsetCalibration | ModAdcAnalog => ModClkEn
  }

  /** Bit positions with room above them for a field of one, two, three or four bits. */
  type Pos1 = x: bv8 | x <= 7
  type Pos2 = x: bv8 | x <= 6
  type Pos3 = x: bv8 | x <= 5
  type Pos4 = x: bv8 | x <= 4

  /**
   * The ac108.h constants the driver uses, left symbolic. Each position's type
   * says that the field the driver shifts into place there lies inside the byte.
   */
  datatype Layout = Layout(
    lrckIoenPos: Pos2,                // LRCK_IOEN
    sdo1EnPos: Pos2,                  // SDO1_EN
    txEnPos: Pos1,                    // TXEN
    genPos: Pos1,                     // GEN
    bclkDivPos: Pos4,                 // BCLKDIV
    bclkPolarityPos: Pos1,            // BCLK_POLARITY
    lrckPolarityPos: Pos1,            // LRCK_POLARITY
    encdSelPos: Pos1,                 // ENCD_SEL
    modeSelPos: Pos2,                 // MODE_SEL
    tx2OffsetPos: Pos1,               // TX2_OFFSET
    tx1OffsetPos: Pos1,               // TX1_OFFSET
    txSlotHizPos: Pos1,               // TX_SLOT_HIZ
    txStatePos: Pos1,                 // TX_STATE
    sampleResolutionPos: Pos3,        // SAMPLE_RESOLUTION
    slotWidthSelPos: Pos3,            // SLOT_WIDTH_SEL
    txMlsPos: Pos1,                   // TX_MLS
    sextPos: Pos2,                    // SEXT
    lrckWidthPos: Pos1,               // LRCK_WIDTH
    txPdmPos: Pos2,                   // TX_PDM
    adcFsI2s1Pos: Pos4,               // ADC_FS_I2S1
    modI2sPos: Pos1,                  // I2S
    modAdcDigitalPos: Pos1,           // ADC_DIGITAL
    modMicOffsetCalibrationPos: Pos1, // MIC_OFFSET_CALIBRATION
    modAdcAnalogPos: Pos1,            // ADC_ANALOG
    bclkIoen: Pos1,                   // BCLK_IOEN
    pcmFormat: bv8,                   // PCM_FORMAT
    leftJustifiedFormat: bv8,         // LEFT_JUSTIFIED_FORMAT
    rightJustifiedFormat: bv8,        // RIGHT_JUSTIFIED_FORMAT
    bclkNormal: bv8,                  // BCLK_NORMAL_DRIVE_N_SAMPLE_P
    bclkInvert: bv8,                  // BCLK_INVERT_DRIVE_P_SAMPLE_N
    lrckNormal: bv8,                  // LRCK_LEFT_HIGH_RIGHT_LOW
    lrckInvert: bv8                   // LRCK_LEFT_LOW_RIGHT_HIGH
  ) {
    /**
     * What else the driver relies on: fields of one register share no bit;
     * BCLK_IOEN is the upper bit of the two-bit field the driver masks with
     * `0x03 << LRCK_IOEN`; the LRCK period bits 1:0 of I2S_LRCK_CTRL1 are apart
     * from LRCK_POLARITY; the three format codes are distinct and fit MODE_SEL;
     * each pair of polarity codes is 0 and 1 in some order.
     */
    predicate Valid() {
      && (forall f1, f2 {:trigger Disjoint(this, f1, f2)} ::
            f1 != f2 && RegOf(f1) == RegOf(f2) ==> Disjoint(this, f1, f2))
      && bclkIoen == lrckIoenPos + 1
      && FieldMask(lrckPolarityPos, 1) & 0x03 == 0
      && pcmFormat <= 3 && leftJustifiedFormat <= 3 && rightJustifiedFormat <= 3
      && pcmFormat != leftJustifiedFormat
      && pcmFormat != rightJustifiedFormat
      && leftJustifiedFormat != rightJustifiedFormat
      && bclkNormal <= 1 && bclkInvert <= 1 && bclkNormal != bclkInvert
      && lrckNormal <= 1 && lrckInvert <= 1 && lrckNormal != lrckInvert
    }
  }

  /** The ac108.h bit position of each field's lowest bit. */
  function Pos(L: Layout, f: Field): BitIndex {
    match f
    case LrckIoen => L.lrckIoenPos
    case Sdo1En => L.sdo1EnPos
    case TxEn => L.txEnPos
    case Gen => L.genPos
    case BclkDiv => L.bclkDivPos
    case BclkPolarity => L.bclkPolarityPos
    case LrckPolarity => L.lrckPolarityPos
    case EncdSel => L.encdSelPos
    case ModeSel => L.modeSelPos
    case Tx2Offset => L.tx2OffsetPos
    case Tx1Offset => L.tx1OffsetPos
    case TxSlotHiz => L.txSlotHizPos
    case TxState => L.txStatePos
    case SampleResolution => L.sampleResolutionPos
    case SlotWidthSel => L.slotWidthSelPos
    case TxMls => L.txMlsPos
    case Sext => L.sextPos
    case LrckWidth => L.lrckWidthPos
    case TxPdm => L.txPdmPos
    case AdcFsI2s1 => L.adcFsI2s1Pos
    case ModI2s => L.modI2sPos
    case ModAdcDigital => L.modAdcDigitalPos
    case ModMicOffsetCalibration => L.modMicOffsetCalibrationPos
    case ModAdcAnalog => L.modAdcAnalogPos
  }

  /** Every field lies inside its byte. */
  lemma PosFits(L: Layout, f: Field)
    ensures InByte(Pos(L, f), Width(f))
  {
  }

  /** The mask of field `f` under layout `L`. */
  function MaskFor(L: Layout, f: Field): bv8 {
    FieldMask(Pos(L, f), Width(f))
  }

  /** The `val << POS` term for field `f`. */
  function At(L: Layout, f: Field, val: bv8): (r: Place) {
    Place(Pos(L, f), Width(f), val)
  }

  /** The value of field `f` in register value `v`. */
  function FieldOf(L: Layout, f: Field, v: bv8): bv8 {
    FieldAt(v, Pos(L, f), Width(f))
  }

  /** Fields `f1` and `f2` share no bit under layout `L`. */
  predicate Disjoint(L: Layout, f1: Field, f2: Field) {
    MaskFor(L, f1) & MaskFor(L, f2) == 0
  }

  /** Fields of one register are apart (the form the placement lemmas use). */
  lemma FieldsApart(L: Layout, f1: Field, f2: Field)
    requires L.Valid()
    requires f1 != f2 && RegOf(f1) == RegOf(f2)
    ensures MaskFor(L, f1) & MaskFor(L, f2) == 0
  {
    assert Disjoint(L, f1, f2);
  }

  /** A field apart from field `g` keeps its value when only `g`'s bits change. */
  lemma FieldKeptApart(L: Layout, f: Field, g: Field, v: bv8, v': bv8)
    requires MaskFor(L, g) & MaskFor(L, f) == 0
    requires v' & !MaskFor(L, g) == v & !MaskFor(L, g)
    ensures FieldOf(L, f, v') == FieldOf(L, f, v)
  {
    PosFits(L, f);
    FieldOfKept(v, v', MaskFor(L, g), Pos(L, f), Width(f));
  }

  /**
   * The two-bit field at LRCK_IOEN holds LRCK_IOEN in bit 0 and BCLK_IOEN in
   * bit 1, so testing `1 << BCLK_IOEN` tests its upper bit.
   */
  lemma BclkIoenBit(L: Layout, v: bv8)
    requires L.Valid()
    ensures v & (1 << L.bclkIoen) != 0 <==> FieldOf(L, LrckIoen, v) >= 2
  {
  }

  /**
   * The update of `0x03 << LRCK_IOEN` to `1 << BCLK_IOEN` leaves the IOEN
   * field at 2 (BCLK driven, LRCK not) and every other bit as it was.
   */
  lemma DriveBclkOnly(L: Layout, v: bv8)
    requires L.Valid()
    ensures FieldOf(L, LrckIoen, UpdateBits(v, 0x03 << Pos(L, LrckIoen), 1 << L.bclkIoen)) == 2
    ensures UpdateBits(v, 0x03 << Pos(L, LrckIoen), 1 << L.bclkIoen) & !MaskFor(L, LrckIoen)
         == v & !MaskFor(L, LrckIoen)
  {
  }

  /**
   * The update of `1 << LRCK_IOEN` to 0 stops driving LRCK and keeps the
   * BCLK_IOEN bit and every other bit.
   */
  lemma StopLrck(L: Layout, v: bv8)
    ensures FieldOf(L, LrckIoen, UpdateBits(v, 1 << Pos(L, LrckIoen), 0)) == FieldOf(L, LrckIoen, v) & 2
    ensures UpdateBits(v, 1 << Pos(L, LrckIoen), 0) & !(1 << Pos(L, LrckIoen)) == v & !(1 << Pos(L, LrckIoen))
  {
  }

  /** The `val << POS` terms for a list of fields and their values. */
  function Placed(L: Layout, fields: seq<Field>, vals: seq<bv8>): (fs: seq<Place>)
    requires |fields| == |vals|
    ensures |fs| == |fields|
    ensures forall k :: 0 <= k < |fs| ==> fs[k] == At(L, fields[k], vals[k])
  {
    seq(|fields|, k requires 0 <= k < |fields| => At(L, fields[k], vals[k]))
  }

  /** Distinct fields of one register, as every mask the driver builds lists them. */
  predicate SameRegister(fields: seq<Field>) {
    && (forall j, k :: 0 <= j < k < |fields| ==> fields[j] != fields[k])
    && (forall k :: 0 <= k < |fields| ==> RegOf(fields[k]) == RegOf(fields[0]))
  }

  /** Each value fits the width of its field, so that `val << POS` stays inside the field. */
  predicate ValuesFit(fields: seq<Field>, vals: seq<bv8>)
    requires |fields| == |vals|
  {
    forall k :: 0 <= k < |fields| ==> vals[k] <= Ones(Width(fields[k]))
  }

  /** Each listed field of register value `v` holds its listed value. */
  predicate FieldsHold(L: Layout, fields: seq<Field>, vals: seq<bv8>, v: bv8)
    requires |fields| == |vals|
  {
    forall k :: 0 <= k < |fields| ==> FieldOf(L, fields[k], v) == vals[k]
  }

  /** The driver's mask/value pairs built from such fields are well placed. */
  lemma PlacedWellPlaced(L: Layout, fields: seq<Field>, vals: seq<bv8>)
    requires L.Valid()
    requires |fields| == |vals| && SameRegister(fields) && ValuesFit(fields, vals)
    ensures WellPlaced(Placed(L, fields, vals))
  {
    var fs := Placed(L, fields, vals);
    forall k | 0 <= k < |fs|
      ensures Fits(fs[k])
    {
      PosFits(L, fields[k]);
    }
    forall j, k | 0 <= j < k < |fs|
      ensures FieldMask(fs[j].pos, fs[j].width) & FieldMask(fs[k].pos, fs[k].width) == 0
    {
      FieldsApart(L, fields[j], fields[k]);
    }
  }

  /** The mask of a list of fields: the OR of their masks. */
  function MaskOfFields(L: Layout, fields: seq<Field>): bv8 {
    if |fields| == 0 then 0 else MaskFor(L, fields[0]) | MaskOfFields(L, fields[1..])
  }

  /** The mask of a list of fields covers each field of the list. */
  lemma {:induction false} FieldInMask(L: Layout, fields: seq<Field>, k: nat)
    requires k < |fields|
    ensures MaskFor(L, fields[k]) & !MaskOfFields(L, fields) == 0
  {
    if k > 0 {
      assert fields[1..][k - 1] == fields[k];
      FieldInMask(L, fields[1..], k - 1);
    }
  }

  /** The mask the driver builds from `val << POS` terms depends only on the fields. */
  lemma {:induction false} MaskOfPlaced(L: Layout, fields: seq<Field>, vals: seq<bv8>)
    requires |fields| == |vals|
    ensures MaskOf(Placed(L, fields, vals)) == MaskOfFields(L, fields)
  {
    if |fields| > 0 {
      assert Placed(L, fields, vals)[1..] == Placed(L, fields[1..], vals[1..]);
      MaskOfPlaced(L, fields[1..], vals[1..]);
    }
  }
}
