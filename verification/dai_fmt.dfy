/**
 * pcm5102a_set_dai_fmt (pcm5102a.c lines 418-555): the clock roles, the
 * serial format and the clock polarities a DAI format word selects, written
 * to every device of the group. The word arrives here already split into
 * its three fields (the SND_SOC_DAIFMT_MASTER_MASK, _FORMAT_MASK and
 * _INV_MASK parts); the numeric values of those kernel constants are not
 * part of this model.
 */
module DaiFmt {
  import opened Options
  import opened Registers
  import opened Ac108
  import opened Ac10x

  /** The clock-provider field: CBM_CFM (the AC108 drives both clocks), CBS_CFS (it receives them), or anything else. */
  datatype Role = CodecMaster | CodecSlave | OtherRole

  /** The format field: I2S, RIGHT_J, LEFT_J, DSP_A, DSP_B, or anything else. */
  datatype SerialFormat = I2s | RightJ | LeftJ | DspA | DspB | OtherFormat

  /** The inversion field: normal or inverted bit clock (NB/IB) and frame clock (NF/IF), or anything else. */
  datatype Inversion = NbNf | NbIf | IbNf | IbIf | OtherInversion

  /** A DAI format word, split into its three fields. */
  datatype Fmt = Fmt(role: Role, format: SerialFormat, inversion: Inversion)

  /** Every field of the word holds a value the driver handles. */
  predicate Recognised(fmt: Fmt) {
    fmt.role != OtherRole && fmt.format != OtherFormat && fmt.inversion != OtherInversion
  }

  // ---------------------------------------------------------------------------
  // Decoding
  // ---------------------------------------------------------------------------

  /** The i2s_mode code and the TX offset, in BCLKs, a serial format is programmed with. */
  datatype Framing = Framing(mode: bv8, offset: bv8)

  /**
   * Lines 456-485: I2S is left-justified framing one BCLK late, DSP_A is PCM
   * framing one BCLK late, RIGHT_J, LEFT_J and DSP_B start on the frame edge;
   * any other format is rejected. Read backwards: a one-BCLK offset means I2S
   * or DSP_A, the PCM mode means DSP_A or DSP_B, the right-justified mode
   * means RIGHT_J.
   */
  function FramingOf(L: Layout, f: SerialFormat): (r: Option<Framing>)
    ensures r.None? <==> f == OtherFormat
    ensures r.Some? ==>
      && r.value.offset <= 1
      && r.value.mode in {L.leftJustifiedFormat, L.rightJustifiedFormat, L.pcmFormat}
    ensures L.Valid() && r.Some? ==>
      && (r.value.offset == 1 <==> f == I2s || f == DspA)
      && (r.value.mode == L.pcmFormat <==> f == DspA || f == DspB)
      && (r.value.mode == L.rightJustifiedFormat <==> f == RightJ)
  {
    match f
    case I2s => Some(Framing(L.leftJustifiedFormat, 1))
    case RightJ => Some(Framing(L.rightJustifiedFormat, 0))
    case LeftJ => Some(Framing(L.leftJustifiedFormat, 0))
    case DspA => Some(Framing(L.pcmFormat, 1))
    case DspB => Some(Framing(L.pcmFormat, 0))
    case OtherFormat => None
  }

  /** No two recognised formats share a framing: the mode and offset written identify the format. */
  lemma FramingIdentifies(L: Layout, f: SerialFormat, g: SerialFormat)
    requires L.Valid()
    requires FramingOf(L, f).Some? && FramingOf(L, f) == FramingOf(L, g)
    ensures f == g
  {
    var r := FramingOf(L, f).value;
    if r.offset == 1 {
      assert f == I2s || f == DspA;
    }
  }

  /** The BCLK_POLARITY and LRCK_POLARITY codes an inversion is programmed with. */
  datatype Polarity = Polarity(bclk: bv8, lrck: bv8)

  /**
   * Lines 488-512: the bit clock is inverted for IB_NF and IB_IF, the frame
   * clock for NB_IF and IB_IF; any other value is rejected.
   */
  function PolarityOf(L: Layout, inv: Inversion): (r: Option<Polarity>)
    ensures r.None? <==> inv == OtherInversion
    ensures r.Some? ==> r.value.bclk in {L.bclkNormal, L.bclkInvert} && r.value.lrck in {L.lrckNormal, L.lrckInvert}
    ensures L.Valid() && r.Some? ==>
      && (r.value.bclk == L.bclkInvert <==> inv == IbNf || inv == IbIf)
      && (r.value.lrck == L.lrckInvert <==> inv == NbIf || inv == IbIf)
  {
    match inv
    case NbNf => Some(Polarity(L.bclkNormal, L.lrckNormal))
    case NbIf => Some(Polarity(L.bclkNormal, L.lrckInvert))
    case IbNf => Some(Polarity(L.bclkInvert, L.lrckNormal))
    case IbIf => Some(Polarity(L.bclkInvert, L.lrckInvert))
    case OtherInversion => None
  }

  /** The four inversions are programmed with four different polarity pairs. */
  lemma PolarityIdentifies(L: Layout, a: Inversion, b: Inversion)
    requires L.Valid()
    requires PolarityOf(L, a).Some? && PolarityOf(L, a) == PolarityOf(L, b)
    ensures a == b
  {
    var r := PolarityOf(L, a).value;
    if r.bclk == L.bclkInvert {
      assert a == IbNf || a == IbIf;
    }
  }

  // ---------------------------------------------------------------------------
  // Clock roles
  // ---------------------------------------------------------------------------

  /** The I2S_CTRL fields of the role update: the two IOEN bits, SDO1_EN, TXEN and GEN. */
  const RoleFields: seq<Field> := [LrckIoen, Sdo1En, TxEn, Gen]

  /** TXEN and GEN are switched on for a master and off for a slave. */
  function Enable(master: bool): (e: bv8)
    ensures e <= 1 && (e == 1 <==> master)
  {
    if master then 1 else 0
  }

  /**
   * I2S_CTRL value `v'` after the role is set from `v`: the IOEN field 2 on
   * a device that drives the bit clock and 0 (both clocks received)
   * otherwise, SDO1_EN 3, TXEN and GEN on exactly in master mode, every bit
   * outside those fields kept.
   */
  predicate RoleSet(L: Layout, v: bv8, v': bv8, master: bool, drives: bool) {
    && FieldOf(L, LrckIoen, v') == (if drives then 2 else 0)
    && FieldOf(L, Sdo1En, v') == 3
    && FieldOf(L, TxEn, v') == Enable(master)
    && FieldOf(L, Gen, v') == Enable(master)
    && v' & !MaskOfFields(L, RoleFields) == v & !MaskOfFields(L, RoleFields)
  }

  /** The multi-device update of lines 435-436 (master) or 447-448 (slave) on one I2S_CTRL value. */
  method WriteRole(L: Layout, v: bv8, master: bool) returns (r: bv8)
    requires L.Valid()
    ensures RoleSet(L, v, r, master, false)
  {
    var e := Enable(master);
    RoleFieldsOneRegister();
    RoleFits(e);
    r := UpdateFields(L, v, RoleFields, [0, 3, e, e]);
    RoleFieldsRead(L, r, e);
  }

  /** The role values fit their fields. */
  lemma RoleFits(e: bv8)
    requires e <= 1
    ensures ValuesFit(RoleFields, [0, 3, e, e])
  {
  }

  /** The role values read back field by field. */
  lemma RoleFieldsRead(L: Layout, v': bv8, e: bv8)
    requires L.Valid()
    requires FieldsHold(L, RoleFields, [0, 3, e, e], v')
    ensures FieldOf(L, LrckIoen, v') == 0 && FieldOf(L, Sdo1En, v') == 3
    ensures FieldOf(L, TxEn, v') == e && FieldOf(L, Gen, v') == e
  {
    assert FieldOf(L, RoleFields[0], v') == 0 && FieldOf(L, RoleFields[1], v') == 3;
    assert FieldOf(L, RoleFields[2], v') == e && FieldOf(L, RoleFields[3], v') == e;
  }

  /** Driving BCLK after the role update keeps every bit outside the role fields. */
  lemma DriveKeepsOutside(L: Layout, v: bv8, v1: bv8, v2: bv8)
    requires v1 & !MaskOfFields(L, RoleFields) == v & !MaskOfFields(L, RoleFields)
    requires v2 & !MaskFor(L, LrckIoen) == v1 & !MaskFor(L, LrckIoen)
    ensures v2 & !MaskOfFields(L, RoleFields) == v & !MaskOfFields(L, RoleFields)
  {
    FieldInMask(L, RoleFields, 0);
    assert RoleFields[0] == LrckIoen;
    KeptOutside(v, v1, v2, MaskFor(L, LrckIoen), MaskOfFields(L, RoleFields));
  }

  /**
   * Line 438 after the role update on the master: turning IOEN to 2 keeps
   * the other role fields, so the master drives BCLK with its role fields set.
   */
  lemma DriveAfterRole(L: Layout, v: bv8, v1: bv8, v2: bv8, master: bool)
    requires L.Valid()
    requires RoleSet(L, v, v1, master, false)
    requires DrivesBclkOnly(L, v1, v2)
    ensures RoleSet(L, v, v2, master, true)
  {
    DriveKeepsField(L, Sdo1En, v1, v2);
    DriveKeepsField(L, TxEn, v1, v2);
    DriveKeepsField(L, Gen, v1, v2);
    DriveKeepsOutside(L, v, v1, v2);
  }

  /** Lines 435-436 or 447-448: the role update of I2S_CTRL on devices 0 .. count-1. */
  method WriteRoles(L: Layout, devs: seq<Device>, count: int, master: bool) returns (devs': seq<Device>)
    requires L.Valid() && 0 <= count <= |devs|
    ensures OnlyCtrlChanged(devs, devs')
    ensures forall d :: 0 <= d < count ==> RoleSet(L, devs[d].i2sCtrl, devs'[d].i2sCtrl, master, false)
    ensures forall d :: count <= d < |devs| ==> devs'[d] == devs[d]
  {
    devs' := devs;
    for i := 0 to count
      invariant OnlyCtrlChanged(devs, devs')
      invariant forall d :: 0 <= d < i ==> RoleSet(L, devs[d].i2sCtrl, devs'[d].i2sCtrl, master, false)
      invariant forall d :: i <= d < |devs| ==> devs'[d] == devs[d]
    {
      var v := WriteRole(L, devs'[i].i2sCtrl, master);
      devs' := devs'[i := devs'[i].(i2sCtrl := v)];
    }
  }

  /**
   * The I2S_CTRL values `after` of a group against `before` once the role is
   * written: on each device in use the role fields, with device 0 alone
   * driving BCLK in master mode; with no device in use, device 0 still
   * turned to drive BCLK in master mode; every other device out of use
   * untouched.
   */
  predicate RolesWritten(L: Layout, before: seq<bv8>, after: seq<bv8>, count: int, master: bool) {
    && |before| == MaxCodecs && |after| == MaxCodecs
    && (forall d :: 0 <= d < count && d < MaxCodecs ==>
          RoleSet(L, before[d], after[d], master, master && d == MasterIndex))
    && (master && count <= 0 ==> DrivesBclkOnly(L, before[MasterIndex], after[MasterIndex]))
    && (forall d :: 0 <= d < MaxCodecs && count <= d && !(master && d == MasterIndex) ==> after[d] == before[d])
  }

  /**
   * The topology the role write leaves on the devices in use: in master mode
   * exactly one of them, device 0, drives a clock; in slave mode none does.
   */
  lemma OneClockSource(L: Layout, before: seq<bv8>, after: seq<bv8>, count: int, master: bool)
    requires RolesWritten(L, before, after, count, master)
    ensures forall d :: 0 <= d < count && d < MaxCodecs ==>
      (FieldOf(L, LrckIoen, after[d]) != 0 <==> master && d == MasterIndex)
  {
    forall d | 0 <= d < count && d < MaxCodecs
      ensures FieldOf(L, LrckIoen, after[d]) != 0 <==> master && d == MasterIndex
    {
      assert RoleSet(L, before[d], after[d], master, master && d == MasterIndex);
    }
  }

  /** The role update followed by the master's BCLK drive, stated against the group before both. */
  lemma RolesThenDrive(L: Layout, devs: seq<Device>, written: seq<Device>, driven: seq<Device>,
                       count: int, master: bool)
    requires L.Valid() && |devs| == MaxCodecs && 0 <= count <= MaxCodecs
    requires |written| == MaxCodecs
    requires forall d :: 0 <= d < count ==> RoleSet(L, devs[d].i2sCtrl, written[d].i2sCtrl, master, false)
    requires forall d :: count <= d < MaxCodecs ==> written[d] == devs[d]
    requires |driven| == MaxCodecs
    requires master ==>
      && driven == written[MasterIndex := driven[MasterIndex]]
      && DrivesBclkOnly(L, written[MasterIndex].i2sCtrl, driven[MasterIndex].i2sCtrl)
    requires !master ==> driven == written
    ensures RolesWritten(L, Ctrls(devs), Ctrls(driven), count, master)
  {
    if master && count > 0 {
      DriveAfterRole(L, devs[MasterIndex].i2sCtrl, written[MasterIndex].i2sCtrl, driven[MasterIndex].i2sCtrl, master);
    }
  }

  /**
   * Lines 429-449 for a recognised role: the role update on every device in
   * use and, in master mode, BCLK driven by device 0. Only I2S_CTRL changes.
   */
  method ApplyRole(L: Layout, devs: seq<Device>, count: int, master: bool) returns (devs': seq<Device>)
    requires L.Valid() && |devs| == MaxCodecs && 0 <= count <= MaxCodecs
    ensures RolesWritten(L, Ctrls(devs), Ctrls(devs'), count, master)
    ensures OnlyCtrlChanged(devs, devs')
  {
    var written := WriteRoles(L, devs, count, master);
    devs' := DriveMaster(L, written, master);
    RolesThenDrive(L, devs, written, devs', count, master);
    DriveMasterOnlyCtrl(written, devs', master);
    OnlyCtrlChangedTrans(devs, written, devs');
  }

  // ---------------------------------------------------------------------------
  // Format and polarity registers
  // ---------------------------------------------------------------------------

  /** The I2S_FMT_CTRL1 fields of lines 531-538: ENCD_SEL, MODE_SEL, the two TX offsets, TX_SLOT_HIZ and TX_STATE. */
  const FormatFields: seq<Field> := [EncdSel, ModeSel, Tx2Offset, Tx1Offset, TxSlotHiz, TxState]

  /** The I2S_FMT_CTRL3 fields of lines 549-550: TX_MLS, SEXT, LRCK_WIDTH and TX_PDM. */
  const SlotFields: seq<Field> := [TxMls, Sext, LrckWidth, TxPdm]

  /** Each list names distinct fields of one register. */
  lemma RoleFieldsOneRegister()
    ensures SameRegister(RoleFields)
  {
  }

  lemma FormatFieldsOneRegister()
    ensures SameRegister(FormatFields)
  {
  }

  lemma SlotFieldsOneRegister()
    ensures SameRegister(SlotFields)
  {
  }

  /**
   * I2S_FMT_CTRL1 value `v'` after the update from `v`: every bit outside
   * the six fields kept; when data_protocol fits the one-bit ENCD_SEL, the
   * encoding is data_protocol, the mode and both TX offsets are the
   * framing's, the slots are not put in high impedance and TX_STATE is 1.
   */
  predicate Format1Set(L: Layout, v: bv8, v': bv8, fr: Framing, dataProtocol: bv8) {
    && v' & !MaskOfFields(L, FormatFields) == v & !MaskOfFields(L, FormatFields)
    && (dataProtocol <= 1 ==>
          && FieldOf(L, EncdSel, v') == dataProtocol
          && FieldOf(L, ModeSel, v') == fr.mode
          && FieldOf(L, Tx2Offset, v') == fr.offset
          && FieldOf(L, Tx1Offset, v') == fr.offset
          && FieldOf(L, TxSlotHiz, v') == 0
          && FieldOf(L, TxState, v') == 1)
  }

  /** The six values of lines 531-538, in the order of FormatFields. */
  function Format1Values(fr: Framing, dataProtocol: bv8): seq<bv8> {
    [dataProtocol, fr.mode, fr.offset, fr.offset, 0, 1]
  }

  /** A framing code and a data_protocol of at most 1 fit the six fields. */
  lemma Format1Fits(fr: Framing, dataProtocol: bv8)
    requires fr.mode <= 3 && fr.offset <= 1 && dataProtocol <= 1
    ensures ValuesFit(FormatFields, Format1Values(fr, dataProtocol))
  {
  }

  /** The six values read back field by field. */
  lemma Format1Fields(L: Layout, v': bv8, fr: Framing, dataProtocol: bv8)
    requires L.Valid()
    requires FieldsHold(L, FormatFields, Format1Values(fr, dataProtocol), v')
    ensures FieldOf(L, EncdSel, v') == dataProtocol && FieldOf(L, ModeSel, v') == fr.mode
    ensures FieldOf(L, Tx2Offset, v') == fr.offset && FieldOf(L, Tx1Offset, v') == fr.offset
    ensures FieldOf(L, TxSlotHiz, v') == 0 && FieldOf(L, TxState, v') == 1
  {
    var vals := Format1Values(fr, dataProtocol);
    assert FieldOf(L, FormatFields[0], v') == vals[0] && FieldOf(L, FormatFields[1], v') == vals[1];
    assert FieldOf(L, FormatFields[2], v') == vals[2] && FieldOf(L, FormatFields[3], v') == vals[3];
    assert FieldOf(L, FormatFields[4], v') == vals[4] && FieldOf(L, FormatFields[5], v') == vals[5];
  }

  /** Lines 531-538 on one I2S_FMT_CTRL1 value. */
  method WriteFormat1(L: Layout, v: bv8, fr: Framing, dataProtocol: bv8) returns (r: bv8)
    requires L.Valid() && fr.mode <= 3 && fr.offset <= 1
    ensures Format1Set(L, v, r, fr, dataProtocol)
  {
    FormatFieldsOneRegister();
    r := UpdateFields(L, v, FormatFields, Format1Values(fr, dataProtocol));
    if dataProtocol <= 1 {
      Format1Fits(fr, dataProtocol);
      Format1Fields(L, r, fr, dataProtocol);
    }
  }

  /**
   * I2S_FMT_CTRL3 value `v'` after the update from `v`: MSB first, SEXT 3,
   * a one-BCLK LRCK, linear PCM, every bit outside those fields kept.
   */
  predicate Format3Set(L: Layout, v: bv8, v': bv8) {
    && FieldOf(L, TxMls, v') == 0
    && FieldOf(L, Sext, v') == 3
    && FieldOf(L, LrckWidth, v') == 0
    && FieldOf(L, TxPdm, v') == 0
    && v' & !MaskOfFields(L, SlotFields) == v & !MaskOfFields(L, SlotFields)
  }

  /** The four values of lines 549-550 fit their fields. */
  lemma Format3Fits()
    ensures ValuesFit(SlotFields, [0, 3, 0, 0])
  {
  }

  /** The four values of lines 549-550 read back field by field. */
  lemma Format3Fields(L: Layout, v': bv8)
    requires L.Valid()
    requires FieldsHold(L, SlotFields, [0, 3, 0, 0], v')
    ensures FieldOf(L, TxMls, v') == 0 && FieldOf(L, Sext, v') == 3
    ensures FieldOf(L, LrckWidth, v') == 0 && FieldOf(L, TxPdm, v') == 0
  {
    assert FieldOf(L, SlotFields[0], v') == 0 && FieldOf(L, SlotFields[1], v') == 3;
    assert FieldOf(L, SlotFields[2], v') == 0 && FieldOf(L, SlotFields[3], v') == 0;
  }

  /** Lines 549-550 on one I2S_FMT_CTRL3 value. */
  method WriteFormat3(L: Layout, v: bv8) returns (r: bv8)
    requires L.Valid()
    ensures Format3Set(L, v, r)
  {
    SlotFieldsOneRegister();
    Format3Fits();
    r := UpdateFields(L, v, SlotFields, [0, 3, 0, 0]);
    Format3Fields(L, r);
  }

  /** Line 520 on one I2S_BCLK_CTRL value: the polarity code into BCLK_POLARITY, every other bit kept. */
  method WriteBclkPolarity(L: Layout, v: bv8, code: bv8) returns (r: bv8)
    requires L.Valid() && code <= 1
    ensures FieldOf(L, BclkPolarity, r) == code
    ensures r & !MaskFor(L, BclkPolarity) == v & !MaskFor(L, BclkPolarity)
  {
    r := UpdateFields(L, v, [BclkPolarity], [code]);
  }

  /**
   * Line 524 on one I2S_LRCK_CTRL1 value: the polarity code into
   * LRCK_POLARITY, every other bit, the LRCK period bits among them, kept.
   */
  method WriteLrckPolarity(L: Layout, v: bv8, code: bv8) returns (r: bv8)
    requires L.Valid() && code <= 1
    ensures FieldOf(L, LrckPolarity, r) == code
    ensures r & !MaskFor(L, LrckPolarity) == v & !MaskFor(L, LrckPolarity)
  {
    r := UpdateFields(L, v, [LrckPolarity], [code]);
  }

  /**
   * What lines 520-552 leave on one device in use: both polarities, the
   * framing in I2S_FMT_CTRL1, the fixed I2S_FMT_CTRL3 fields, every
   * high-pass filter off, and I2S_LRCK_CTRL2, I2S_FMT_CTRL2, ADC_SPRC,
   * MOD_CLK_EN and MOD_RST_CTRL kept.
   */
  predicate Formatted(L: Layout, m: Device, m': Device, fr: Framing, dataProtocol: bv8, pol: Polarity) {
    && FieldOf(L, BclkPolarity, m'.i2sBclkCtrl) == pol.bclk
    && m'.i2sBclkCtrl & !MaskFor(L, BclkPolarity) == m.i2sBclkCtrl & !MaskFor(L, BclkPolarity)
    && FieldOf(L, LrckPolarity, m'.i2sLrckCtrl1) == pol.lrck
    && m'.i2sLrckCtrl1 & !MaskFor(L, LrckPolarity) == m.i2sLrckCtrl1 & !MaskFor(L, LrckPolarity)
    && Format1Set(L, m.i2sFmtCtrl1, m'.i2sFmtCtrl1, fr, dataProtocol)
    && Format3Set(L, m.i2sFmtCtrl3, m'.i2sFmtCtrl3)
    && m'.hpfEn == 0x00
    && m'.i2sLrckCtrl2 == m.i2sLrckCtrl2 && m'.i2sFmtCtrl2 == m.i2sFmtCtrl2 && m'.adcSprc == m.adcSprc
    && m'.modClkEn == m.modClkEn && m'.modRstCtrl == m.modRstCtrl
  }

  /**
   * Lines 520-552 on one device `m`, stated against `base`, the device as it
   * was before its I2S_CTRL changed; I2S_CTRL is kept.
   */
  method FormatDevice(L: Layout, base: Device, m: Device, fr: Framing, dataProtocol: bv8, pol: Polarity)
    returns (m': Device)
    requires L.Valid() && fr.mode <= 3 && fr.offset <= 1 && pol.bclk <= 1 && pol.lrck <= 1
    requires m == base.(i2sCtrl := m.i2sCtrl)
    ensures Formatted(L, base, m', fr, dataProtocol, pol) && m'.i2sCtrl == m.i2sCtrl
  {
    var bclk := WriteBclkPolarity(L, m.i2sBclkCtrl, pol.bclk);
    var lrck := WriteLrckPolarity(L, m.i2sLrckCtrl1, pol.lrck);
    var fmt1 := WriteFormat1(L, m.i2sFmtCtrl1, fr, dataProtocol);
    var fmt3 := WriteFormat3(L, m.i2sFmtCtrl3);
    m' := m.(i2sBclkCtrl := bclk, i2sLrckCtrl1 := lrck, i2sFmtCtrl1 := fmt1, i2sFmtCtrl3 := fmt3, hpfEn := 0x00);
  }

  /**
   * The registers of `after` against `before` once a recognised word is
   * fully written: each device in use formatted, every device out of use
   * untouched but for I2S_CTRL.
   */
  predicate FormatsWritten(L: Layout, before: seq<Device>, after: seq<Device>, count: int,
                           fr: Framing, dataProtocol: bv8, pol: Polarity) {
    && |before| == MaxCodecs && |after| == MaxCodecs
    && (forall d :: 0 <= d < count && d < MaxCodecs ==> Formatted(L, before[d], after[d], fr, dataProtocol, pol))
    && (forall d :: 0 <= d < MaxCodecs && count <= d ==> after[d] == before[d].(i2sCtrl := after[d].i2sCtrl))
  }

  /**
   * Lines 520-552 on devices 0 .. count-1 of `devs`, the group `base` after
   * the role write; the others are untouched, and so is every I2S_CTRL.
   */
  method FormatDevices(L: Layout, base: seq<Device>, devs: seq<Device>, count: int,
                       fr: Framing, dataProtocol: bv8, pol: Polarity) returns (devs': seq<Device>)
    requires L.Valid() && |base| == MaxCodecs && 0 <= count <= MaxCodecs
    requires fr.mode <= 3 && fr.offset <= 1 && pol.bclk <= 1 && pol.lrck <= 1
    requires OnlyCtrlChanged(base, devs)
    ensures FormatsWritten(L, base, devs', count, fr, dataProtocol, pol)
    ensures Ctrls(devs') == Ctrls(devs)
  {
    devs' := devs;
    for i := 0 to count
      invariant |devs'| == MaxCodecs
      invariant forall d :: 0 <= d < i ==> Formatted(L, base[d], devs'[d], fr, dataProtocol, pol)
      invariant forall d :: 0 <= d < MaxCodecs ==> devs'[d].i2sCtrl == devs[d].i2sCtrl
      invariant forall d :: i <= d < MaxCodecs ==> devs'[d] == devs[d]
    {
      var m := FormatDevice(L, base[i], devs'[i], fr, dataProtocol, pol);
      devs' := devs'[i := m];
    }
    assert forall d :: 0 <= d < MaxCodecs ==> Ctrls(devs')[d] == Ctrls(devs)[d];
  }

  // ---------------------------------------------------------------------------
  // The entry point
  // ---------------------------------------------------------------------------

  /**
   * Lines 455-552 once the role is written into `roled`: an unrecognised
   * format returns -EINVAL with only the role written; an unrecognised
   * inversion returns -EINVAL with i2s_mode updated too; otherwise power is
   * configured and every device in use is formatted. I2S_CTRL is never
   * touched here.
   */
  method FormatGroup(L: Layout, p: Priv, roled: seq<Device>, fmt: Fmt) returns (o: Outcome)
    requires L.Valid() && p.Valid()
    requires OnlyCtrlChanged(p.devices, roled)
    ensures o.priv.Valid() && o.priv == p.(devices := o.priv.devices, i2sMode := o.priv.i2sMode)
    ensures Ctrls(o.priv.devices) == Ctrls(roled)
    ensures o.status == 0 <==> fmt.format != OtherFormat && fmt.inversion != OtherInversion
    ensures o.status == 0 || o.status == -EINVAL
    ensures o.events == (if o.status == 0 then [PowerConfigured] else [])
    ensures o.priv.i2sMode == if fmt.format != OtherFormat then FramingOf(L, fmt.format).value.mode else p.i2sMode
    ensures o.status != 0 ==> o.priv.devices == roled
    ensures o.status == 0 ==>
      FormatsWritten(L, p.devices, o.priv.devices, p.codecCnt,
                     FramingOf(L, fmt.format).value, p.dataProtocol, PolarityOf(L, fmt.inversion).value)
  {
    var framing := FramingOf(L, fmt.format);
    if framing.None? {
      return Outcome(p.(devices := roled), [], -EINVAL);
    }
    var polarity := PolarityOf(L, fmt.inversion);
    if polarity.None? {
      return Outcome(p.(devices := roled, i2sMode := framing.value.mode), [], -EINVAL);
    }
    var devs := FormatDevices(L, p.devices, roled, p.codecCnt, framing.value, p.dataProtocol, polarity.value);
    o := Outcome(p.(devices := devs, i2sMode := framing.value.mode), [PowerConfigured], 0);
  }

  /**
   * pcm5102a_set_dai_fmt (lines 418-555). With both directions streaming it
   * returns 0 and writes nothing. Otherwise an unrecognised role returns
   * -EINVAL before any write; a recognised one is written first, so an
   * unrecognised format afterwards returns -EINVAL with the role in place,
   * and an unrecognised inversion returns -EINVAL with the role and the new
   * i2s_mode in place. A recognised word configures power once and writes
   * the format registers of every device in use. Only the registers and
   * i2s_mode change.
   */
  method SetDaiFmt(L: Layout, p: Priv, bothActive: bool, fmt: Fmt) returns (o: Outcome)
    requires L.Valid() && p.Valid()
    ensures o.priv.Valid() && o.priv == p.(devices := o.priv.devices, i2sMode := o.priv.i2sMode)
    ensures o.status == 0 || o.status == -EINVAL
    ensures bothActive ==> o == Outcome(p, [], 0)
    ensures !bothActive ==> (o.status == 0 <==> Recognised(fmt))
    ensures o.events == (if !bothActive && Recognised(fmt) then [PowerConfigured] else [])
    ensures !bothActive && fmt.role == OtherRole ==> o.priv == p
    ensures o.priv.i2sMode ==
      if !bothActive && fmt.role != OtherRole && fmt.format != OtherFormat
      then FramingOf(L, fmt.format).value.mode
      else p.i2sMode
    ensures !bothActive && fmt.role != OtherRole ==>
      RolesWritten(L, Ctrls(p.devices), Ctrls(o.priv.devices), p.codecCnt, fmt.role == CodecMaster)
    ensures o.status != 0 ==> OnlyCtrlChanged(p.devices, o.priv.devices)
    ensures !bothActive && Recognised(fmt) ==>
      FormatsWritten(L, p.devices, o.priv.devices, p.codecCnt,
                     FramingOf(L, fmt.format).value, p.dataProtocol, PolarityOf(L, fmt.inversion).value)
  {
    if bothActive {
      return Outcome(p, [], 0);
    }
    if fmt.role == OtherRole {
      return Outcome(p, [], -EINVAL);
    }
    var roled := ApplyRole(L, p.devices, p.codecCnt, fmt.role == CodecMaster);
    o := FormatGroup(L, p, roled, fmt);
  }
}
