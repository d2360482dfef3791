/**
 * The shared driver state `struct ac10x_priv` and the register helpers the
 * core calls. The helpers' bodies are not part of this model; their meaning
 * here is an assumption: ac10x_write replaces one register of one device,
 * ac10x_update_bits is the read-modify-write of Registers.UpdateBits on one
 * device, ac108_multi_write and ac108_multi_update_bits apply the same write
 * or update to devices 0 .. codec_cnt-1, and every bus transaction succeeds.
 * Because the devices are independent, a run of ac108_multi_* calls is
 * modelled as one per-device register program applied to each device in use.
 */
module Ac10x {
  import opened Registers
  import opened Ac108

  /** A group holds at most four device handles and register maps. */
  const MaxCodecs: nat := 4

  /** _MASTER_INDEX = _MASTER_AC108: the master is always bus index 0. */
  const MasterIndex: nat := 0

  /** _FREQ_24_576K = 512 * 48000 and _FREQ_22_579K = 512 * 44100. */
  const Freq24576K: nat := 24576000
  const Freq22579K: nat := 22579200

  /** The kernel's EINVAL; the driver returns its negation. */
  const EINVAL: int := 22

  /** `unsigned` is 32 bits wide. */
  const U32Limit: nat := 0x1_0000_0000

  lemma CanonicalClocks()
    ensures Freq24576K == 512 * 48000 && Freq22579K == 512 * 44100
  {
  }

  /**
   * The registers of one AC108 this core reads or writes, one byte each.
   * Every other register of the chip is outside the model and is never
   * touched by it.
   */
  datatype Device = Device(
    i2sCtrl: bv8,
    i2sBclkCtrl: bv8,
    i2sLrckCtrl1: bv8,
    i2sLrckCtrl2: bv8,
    i2sFmtCtrl1: bv8,
    i2sFmtCtrl2: bv8,
    i2sFmtCtrl3: bv8,
    adcSprc: bv8,
    hpfEn: bv8,
    modClkEn: bv8,
    modRstCtrl: bv8
  )

  /**
   * struct ac10x_priv without its bus handles, lock, codec reference and work
   * item: the registers of each device slot (the i2cmap regmaps), the number
   * of devices in use, and the scalar configuration. `i2sMode` and
   * `dataProtocol` are unsigned char, hence bytes.
   */
  datatype Priv = Priv(
    devices: seq<Device>,
    codecCnt: int,
    sysclk: nat,
    mclk: nat,
    clkId: int,
    i2sMode: bv8,
    dataProtocol: bv8,
    tdmChipsCnt: int,
    sysclkEn: int,
    dacEnable: int
  ) {
    /** Four device slots, 0..4 of them in use, 32-bit clock frequencies. */
    predicate Valid() {
      && |devices| == MaxCodecs
      && 0 <= codecCnt <= MaxCodecs
      && sysclk < U32Limit
      && mclk < U32Limit
    }
  }


  /**
   * Calls into code this model does not see, recorded in order:
   * ac108_config_pll(ac10x, rate, lrck_ratio) and ac108_configure_power(ac10x).
   * Neither is assumed to touch the registers or fields modelled here.
   */
  datatype Event =
    | PllConfigured(rate: nat, lrckRatio: nat)
    | PowerConfigured

  /** The state an entry point leaves, the calls it made, and its return value. */
  datatype Outcome = Outcome(priv: Priv, events: seq<Event>, status: int)

  // ---------------------------------------------------------------------------
  // Register updates on one device
  // ---------------------------------------------------------------------------

  /**
   * One ac10x_update_bits or ac108_multi_update_bits call on one device's
   * register holding `v`, with the mask and value built from one `val << POS`
   * term per listed field, as every such call of the driver is. When each
   * value fits its field, the listed fields take their values and every other
   * field of the register keeps its value; in any case every bit outside the
   * listed fields' masks is kept.
   */
  method UpdateFields(L: Layout, v: bv8, fields: seq<Field>, vals: seq<bv8>) returns (r: bv8)
    requires L.Valid()
    requires |fields| == |vals| && |fields| > 0 && SameRegister(fields)
    ensures r & !MaskOfFields(L, fields) == v & !MaskOfFields(L, fields)
    ensures ValuesFit(fields, vals) ==> FieldsHold(L, fields, vals, r)
    ensures ValuesFit(fields, vals) ==>
      forall g: Field :: RegOf(g) == RegOf(fields[0]) && g !in fields ==> FieldOf(L, g, r) == FieldOf(L, g, v)
  {
    var fs := Placed(L, fields, vals);
    r := UpdateBits(v, MaskOf(fs), ValueOf(fs));
    MaskOfPlaced(L, fields, vals);
    if ValuesFit(fields, vals) {
      PlacedWellPlaced(L, fields, vals);
      UpdatePlaced(v, fs);
      forall g: Field | RegOf(g) == RegOf(fields[0]) && g !in fields
        ensures FieldOf(L, g, r) == FieldOf(L, g, v)
      {
        forall k | 0 <= k < |fs|
          ensures FieldMask(fs[k].pos, fs[k].width) & FieldMask(Pos(L, g), Width(g)) == 0
        {
          FieldsApart(L, fields[k], g);
        }
        PosFits(L, g);
        UpdateApart(v, fs, Pos(L, g), Width(g));
      }
    }
  }

  /** I2S_CTRL value `v'` is `v` with IOEN set to 2 (BCLK driven, LRCK not) and every other bit kept. */
  predicate DrivesBclkOnly(L: Layout, v: bv8, v': bv8) {
    && FieldOf(L, LrckIoen, v') == 2
    && v' & !MaskFor(L, LrckIoen) == v & !MaskFor(L, LrckIoen)
  }

  /**
   * ac10x_update_bits(I2S_CTRL, 0x03 << LRCK_IOEN, 0x01 << BCLK_IOEN) on one
   * device: the IOEN field becomes 2 (BCLK driven, LRCK not), every other bit
   * of I2S_CTRL and every other register is kept.
   */
  method DriveBclk(L: Layout, m: Device) returns (m': Device)
    requires L.Valid()
    ensures DrivesBclkOnly(L, m.i2sCtrl, m'.i2sCtrl)
    ensures m' == m.(i2sCtrl := m'.i2sCtrl)
  {
    m' := m.(i2sCtrl := UpdateBits(m.i2sCtrl, 0x03 << Pos(L, LrckIoen), 1 << L.bclkIoen));
    DriveBclkOnly(L, m.i2sCtrl);
  }

  /** Driving BCLK keeps every other field of I2S_CTRL: none shares a bit with the IOEN field. */
  lemma DriveKeepsField(L: Layout, f: Field, v: bv8, v': bv8)
    requires L.Valid()
    requires f != LrckIoen && RegOf(f) == RegOf(LrckIoen)
    requires DrivesBclkOnly(L, v, v')
    ensures FieldOf(L, f, v') == FieldOf(L, f, v)
  {
    FieldsApart(L, LrckIoen, f);
    FieldKeptApart(L, f, LrckIoen, v, v');
  }

  // ---------------------------------------------------------------------------
  // The group
  // ---------------------------------------------------------------------------

  /**
   * DriveBclk on the master of a group when `drive` holds (pcm5102a.c lines
   * 275 and 438); no change otherwise.
   */
  method DriveMaster(L: Layout, devs: seq<Device>, drive: bool) returns (devs': seq<Device>)
    requires L.Valid() && |devs| == MaxCodecs
    ensures |devs'| == MaxCodecs
    ensures drive ==>
      && devs' == devs[MasterIndex := devs'[MasterIndex]]
      && DrivesBclkOnly(L, devs[MasterIndex].i2sCtrl, devs'[MasterIndex].i2sCtrl)
      && devs'[MasterIndex] == devs[MasterIndex].(i2sCtrl := devs'[MasterIndex].i2sCtrl)
    ensures !drive ==> devs' == devs
  {
    devs' := devs;
    if drive {
      var m := DriveBclk(L, devs[MasterIndex]);
      devs' := devs[MasterIndex := m];
    }
  }

  /** The I2S_CTRL value of each device of a group. */
  function Ctrls(devs: seq<Device>): (cs: seq<bv8>)
    ensures |cs| == |devs| && forall d :: 0 <= d < |devs| ==> cs[d] == devs[d].i2sCtrl
  {
    seq(|devs|, d requires 0 <= d < |devs| => devs[d].i2sCtrl)
  }

  /** Between `before` and `after`, no register but I2S_CTRL changed on any device. */
  predicate OnlyCtrlChanged(before: seq<Device>, after: seq<Device>) {
    && |after| == |before|
    && forall d :: 0 <= d < |before| ==> after[d] == before[d].(i2sCtrl := after[d].i2sCtrl)
  }

  /** Changing nothing changes nothing but I2S_CTRL. */
  lemma OnlyCtrlChangedRefl(devs: seq<Device>)
    ensures OnlyCtrlChanged(devs, devs)
  {
    forall d | 0 <= d < |devs|
      ensures devs[d] == devs[d].(i2sCtrl := devs[d].i2sCtrl)
    {
      var m := devs[d];
      assert m.(i2sCtrl := m.i2sCtrl) == m;
    }
  }

  /** Replacing one device by itself with another I2S_CTRL value is an I2S_CTRL-only change. */
  lemma OnlyCtrlChangedAt(devs: seq<Device>, i: nat, m: Device)
    requires i < |devs| && m == devs[i].(i2sCtrl := m.i2sCtrl)
    ensures OnlyCtrlChanged(devs, devs[i := m])
  {
    OnlyCtrlChangedRefl(devs);
  }

  /** What DriveMaster does is an I2S_CTRL-only change. */
  lemma DriveMasterOnlyCtrl(devs: seq<Device>, devs': seq<Device>, drive: bool)
    requires |devs| == MaxCodecs && |devs'| == MaxCodecs
    requires drive ==>
      && devs' == devs[MasterIndex := devs'[MasterIndex]]
      && devs'[MasterIndex] == devs[MasterIndex].(i2sCtrl := devs'[MasterIndex].i2sCtrl)
    requires !drive ==> devs' == devs
    ensures OnlyCtrlChanged(devs, devs')
  {
    if drive {
      OnlyCtrlChangedAt(devs, MasterIndex, devs'[MasterIndex]);
    } else {
      OnlyCtrlChangedRefl(devs);
    }
  }

  /** Two I2S_CTRL-only changes in a row are one. */
  lemma OnlyCtrlChangedTrans(a: seq<Device>, b: seq<Device>, c: seq<Device>)
    requires OnlyCtrlChanged(a, b) && OnlyCtrlChanged(b, c)
    ensures OnlyCtrlChanged(a, c)
  {
    forall d | 0 <= d < |a|
      ensures c[d] == a[d].(i2sCtrl := c[d].i2sCtrl)
    {
      assert b[d] == a[d].(i2sCtrl := b[d].i2sCtrl);
    }
  }

  /** Only register contents differ between `p` and `q`. */
  predicate SameScalars(p: Priv, q: Priv) {
    q == p.(devices := q.devices)
  }
}
