/**
 * pcm5102a_hw_params: a stream request is validated against the driver's
 * tables and turned into register writes on every device of the group. When
 * the opposite direction is already streaming, only the LRCK period is
 * touched and the running bit clock is checked against the request (the
 * fast path); otherwise the whole clock tree is programmed (the full path).
 */
module HwParams {
  import opened Options
  import opened Registers
  import opened Ac108
  import opened Ac10x
  import opened Tables
  import opened Arith

  /** SNDRV_PCM_STREAM_PLAYBACK and SNDRV_PCM_STREAM_CAPTURE. */
  datatype Direction = Playback | Capture

  /**
   * What a hw_params call learns from its substream, DAI and parameters: the
   * direction being configured, which directions the DAI already streams,
   * and params_format, params_rate and params_channels.
   */
  datatype Request = Request(
    stream: Direction,
    playbackActive: bool,
    captureActive: bool,
    format: SampleFormat,
    rate: nat,
    channels: nat
  )

  /**
   * What the ALSA core guarantees about the parameters: at least one channel,
   * a 32-bit rate, and few enough channels that rate * channels * resolution
   * never leaves 32 bits for any table rate and resolution.
   */
  predicate ValidRequest(q: Request) {
    && 1 <= q.channels
    && q.rate < U32Limit
    && q.channels * 96000 * 32 < U32Limit
  }

  /** The opposite direction is already active: the fast path is taken. */
  predicate OppositeActive(q: Request) {
    || (q.stream == Capture && q.playbackActive)
    || (q.stream == Playback && q.captureActive)
  }

  // ---------------------------------------------------------------------------
  // Validation
  // ---------------------------------------------------------------------------

  /** The result of checking a request against the tables. */
  datatype Negotiation =
    | Resolved(resIndex: nat, rateIndex: nat)   // indices into ac108_samp_res and ac108_sample_rate
    | UnsupportedResolution
    | UnsupportedRate
    | RateChannelUnsupported

  /** The rate looked up in the table: params_rate / (data_protocol + 1). */
  function RateKey(dataProtocol: bv8, rate: nat): nat {
    rate / (dataProtocol as nat + 1)
  }


  /**
   * The three checks both paths run, in order: the sample format, the rate
   * (scaled down by the encoding factor), and the 8-channel 96 kHz exclusion.
   */
  function Negotiate(dataProtocol: bv8, q: Request): (n: Negotiation)
    ensures n.Resolved? ==> n.resIndex < |SampleResolutions| && n.rateIndex < |SampleRates|
  {
    match ResolutionIndex(q.format)
    case None => UnsupportedResolution
    case Some(ri) =>
      match FindRate(RateKey(dataProtocol, q.rate))
      case None => UnsupportedRate
      case Some(ti) =>
        if q.channels == 8 && SampleRates[ti].realVal == 96000 then RateChannelUnsupported
        else Resolved(ri, ti)
  }

  /**
   * Each rejection happens exactly on its condition, and a resolved request
   * names the table entries of its format's significant bits and its scaled
   * rate.
   */
  lemma NegotiateSpec(dataProtocol: bv8, q: Request)
    ensures var n := Negotiate(dataProtocol, q);
      && (n.UnsupportedResolution? <==> SignificantBits(q.format).None?)
      && (n.UnsupportedRate? <==>
            SignificantBits(q.format).Some? && RateKey(dataProtocol, q.rate) !in SupportedRates())
      && (n.RateChannelUnsupported? <==>
            SignificantBits(q.format).Some? && RateKey(dataProtocol, q.rate) == 96000 && q.channels == 8)
      && (n.Resolved? ==>
            && SampleResolutions[n.resIndex].realVal == SignificantBits(q.format).value
            && SampleRates[n.rateIndex].realVal == RateKey(dataProtocol, q.rate))
  {
    FindRateSupported(RateKey(dataProtocol, q.rate));
  }

  /** The bounds later arithmetic relies on, for a resolved request. */
  lemma ResolvedBounds(dataProtocol: bv8, q: Request)
    requires Negotiate(dataProtocol, q).Resolved?
    ensures var n := Negotiate(dataProtocol, q);
      && 8 <= SampleResolutions[n.resIndex].realVal <= 32
      && 1 <= SampleResolutions[n.resIndex].regVal <= 7
      && 8000 <= SampleRates[n.rateIndex].realVal <= 96000
      && SampleRates[n.rateIndex].regVal <= 9
      && 8000 <= q.rate
  {
    SampleResolutionTableShape();
    SampleRateTableShape();
    SampleRateBounds();
    NegotiateSpec(dataProtocol, q);
  }

  /** The resolution in bits a resolved request asks for. */
  function ResolvedBits(dataProtocol: bv8, q: Request): (res: nat)
    requires Negotiate(dataProtocol, q).Resolved?
    ensures 8 <= res <= 32
    ensures Some(res) == SignificantBits(q.format)
  {
    ResolvedBounds(dataProtocol, q);
    NegotiateSpec(dataProtocol, q);
    SampleResolutions[Negotiate(dataProtocol, q).resIndex].realVal
  }

  // ---------------------------------------------------------------------------
  // LRCK period
  // ---------------------------------------------------------------------------

  /** The conversion of an unsigned value to the u8 a register helper takes. */
  function ByteOf(n: nat): bv8 {
    (n % 256) as bv8
  }

  /** Incrementing a byte below 255 increments its value. */
  lemma ByteSucc(b: bv8)
    requires b < 255
    ensures (b + 1) as nat == b as nat + 1
  {
  }

  /** A byte converts to a number and back unchanged. */
  lemma ByteRoundTrip(b: bv8)
    ensures (b as nat) as bv8 == b
  {
  }

  /** Every number below 256 is the value of some byte. */
  lemma {:induction false} ByteWithValue(k: nat) returns (b: bv8)
    requires k < 256
    ensures b as nat == k
  {
    if k == 0 {
      b := 0;
    } else {
      var c := ByteWithValue(k - 1);
      ByteSucc(c);
      b := c + 1;
    }
  }

  /** A number below 256 converts to the byte of that value. */
  lemma ByteValue(k: nat)
    requires k < 256
    ensures (k as bv8) as nat == k
  {
    var b := ByteWithValue(k);
    ByteRoundTrip(b);
  }

  /** Byte order agrees with number order. */
  lemma ByteMonotone(b1: bv8, b2: bv8)
    requires b1 as nat <= b2 as nat
    ensures b1 <= b2
  {
  }

  /** A number up to a bound below 256 converts to a byte of its value, up to the bound's byte. */
  lemma SmallByte(k: nat, bound: nat)
    requires k <= bound < 256
    ensures (k as bv8) as nat == k && k as bv8 <= bound as bv8
  {
    ByteValue(k);
    ByteValue(bound);
    ByteMonotone(k as bv8, bound as bv8);
  }

  /** The byte holds the value modulo 256. */
  lemma ByteOfValue(n: nat)
    ensures ByteOf(n) as nat == n % 256
  {
    ByteValue(n % 256);
  }

  /**
   * The 10-bit LRCK period one device holds: LRCK_CTRL2 is bits 7:0 and bits
   * 1:0 of LRCK_CTRL1 are bits 9:8.
   */
  function Period(m: Device): nat {
    m.i2sLrckCtrl2 as nat + 256 * (m.i2sLrckCtrl1 & 0x03) as nat
  }

  /** The two low bits of a byte are its value modulo 4. */
  lemma LowBitsOfByte(b: bv8)
    ensures (b & 0x03) as nat == b as nat % 4
  {
  }

  /** Reducing modulo 256 first does not change the value modulo 4. */
  lemma ModFourOfByte(n: nat)
    ensures n % 256 % 4 == n % 4
  {
    DivModUnique(n, 4, 64 * (n / 256) + (n % 256) / 4, (n % 256) % 4) by {
      DivModUnique(n, 256, n / 256, n % 256);
      DivModUnique(n % 256, 4, (n % 256) / 4, (n % 256) % 4);
    }
  }

  /** The two low bits of the byte a number is truncated to are the number modulo 4. */
  lemma LowBits(n: nat)
    ensures (ByteOf(n) & 0x03) as nat == n % 4
  {
    ByteOfValue(n);
    LowBitsOfByte(ByteOf(n));
    ModFourOfByte(n);
  }

  /** Bits 7:0 and bits 9:8 of a number, put back together, are the number modulo 1024. */
  lemma SplitPeriod(period: nat)
    ensures period % 256 + 256 * (period / 256 % 4) == period % 1024
  {
    var lo, a := period % 256, period / 256;
    var b, c := a / 4, a % 4;
    assert period == 1024 * b + (256 * c + lo);
    DivModUnique(period, 1024, b, 256 * c + lo);
  }

  /**
   * Only the LRCK period may differ between `m` and `m'`: LRCK_CTRL2 and bits
   * 1:0 of LRCK_CTRL1.
   */
  predicate PeriodOnly(m: Device, m': Device) {
    && m' == m.(i2sLrckCtrl1 := m'.i2sLrckCtrl1, i2sLrckCtrl2 := m'.i2sLrckCtrl2)
    && m'.i2sLrckCtrl1 & !0x03 == m.i2sLrckCtrl1 & !0x03
  }

  /**
   * The two bytes the PCM-form period write leaves, `period & 0xFF` in
   * LRCK_CTRL2 and `period >> 8` under mask 0x03 in LRCK_CTRL1 (whose value
   * was `v1`), hold the period modulo 1024, and the rest of LRCK_CTRL1 is kept.
   */
  lemma PcmPeriodBytes(v1: bv8, period: nat)
    ensures var lo, hi := ByteOf(period), UpdateBits(v1, 0x03, ByteOf(period / 256));
      && lo as nat + 256 * (hi & 0x03) as nat == period % 1024
      && hi & !0x03 == v1 & !0x03
  {
    ByteOfValue(period);
    LowBits(period / 256);
    SplitPeriod(period);
  }

  /**
   * The PCM-form period write on one device (lines 256-258, 270-272 and
   * 363-365): LRCK_CTRL2 takes `period & 0xFF` and the update of LRCK_CTRL1
   * under mask 0x03 takes `period >> 8` truncated to a byte. The device then
   * holds the period modulo 1024, the ten bits it has.
   */
  method WritePcmPeriod(m: Device, period: nat) returns (m': Device)
    ensures PeriodOnly(m, m')
    ensures Period(m') == period % 1024
  {
    m' := m.(i2sLrckCtrl2 := ByteOf(period), i2sLrckCtrl1 := UpdateBits(m.i2sLrckCtrl1, 0x03, ByteOf(period / 256)));
    PcmPeriodBytes(m.i2sLrckCtrl1, period);
  }

  /**
   * Outside PCM mode the update of LRCK_CTRL1 under mask 0x03 to 0 clears the
   * period's high bits and keeps the rest; with an encoding, the period is
   * then resolution - 1 truncated to a byte.
   */
  lemma ClearedHighBits(v1: bv8, res: nat)
    requires 1 <= res
    ensures UpdateBits(v1, 0x03, 0x00) & 0x03 == 0
    ensures UpdateBits(v1, 0x03, 0x00) & !0x03 == v1 & !0x03
    ensures ByteOf(res - 1) as nat + 256 * (UpdateBits(v1, 0x03, 0x00) & 0x03) as nat == (res - 1) % 256
  {
    ByteOfValue(res - 1);
  }

  /**
   * The period the first write leaves on a device, by serial format: in PCM
   * mode resolution * channels - 1 (to ten bits); outside it, with an
   * encoding, resolution - 1 (as a byte) with the high bits cleared; outside
   * it without one, only the high bits cleared.
   */
  predicate PeriodSet(L: Layout, m: Device, m': Device, i2sMode: bv8, dataProtocol: bv8, res: nat, channels: nat) {
    && (i2sMode == L.pcmFormat ==> Period(m') == (res * channels - 1) % 1024)
    && (i2sMode != L.pcmFormat && dataProtocol != 0 ==> Period(m') == (res - 1) % 256)
    && (i2sMode != L.pcmFormat && dataProtocol == 0 ==>
          m'.i2sLrckCtrl1 & 0x03 == 0 && m'.i2sLrckCtrl2 == m.i2sLrckCtrl2)
  }

  /** The period write both paths make first, on one device (lines 245-259 and 351-366). */
  method WriteLrckPeriod(L: Layout, m: Device, i2sMode: bv8, dataProtocol: bv8, res: nat, channels: nat)
    returns (m': Device)
    requires 1 <= res && 1 <= channels
    ensures PeriodOnly(m, m')
    ensures PeriodSet(L, m, m', i2sMode, dataProtocol, res, channels)
  {
    if i2sMode != L.pcmFormat {
      var lo := if dataProtocol != 0 then ByteOf(res - 1) else m.i2sLrckCtrl2;
      m' := m.(i2sLrckCtrl2 := lo, i2sLrckCtrl1 := UpdateBits(m.i2sLrckCtrl1, 0x03, 0x00));
      ClearedHighBits(m.i2sLrckCtrl1, res);
    } else {
      MulPositive(res, channels);
      m' := WritePcmPeriod(m, res * channels - 1);
    }
  }

  /** Two period-only changes in a row change only the period. */
  lemma PeriodOnlyTwice(m: Device, m1: Device, m2: Device)
    requires PeriodOnly(m, m1) && PeriodOnly(m1, m2)
    ensures PeriodOnly(m, m2)
  {
  }

  /**
   * The first period write (lines 245-259 and 351-366) on devices
   * 0 .. count-1, as ac108_multi_write and ac108_multi_update_bits make it;
   * the other devices are kept.
   */
  method WriteLrckPeriods(L: Layout, devs: seq<Device>, count: int, i2sMode: bv8, dataProtocol: bv8,
                          res: nat, channels: nat) returns (devs': seq<Device>)
    requires 0 <= count <= |devs| && 1 <= res && 1 <= channels
    ensures |devs'| == |devs|
    ensures forall d :: 0 <= d < count ==>
      PeriodOnly(devs[d], devs'[d]) && PeriodSet(L, devs[d], devs'[d], i2sMode, dataProtocol, res, channels)
    ensures forall d :: count <= d < |devs| ==> devs'[d] == devs[d]
  {
    devs' := devs;
    for i := 0 to count
      invariant |devs'| == |devs|
      invariant forall d :: 0 <= d < i ==>
        PeriodOnly(devs[d], devs'[d]) && PeriodSet(L, devs[d], devs'[d], i2sMode, dataProtocol, res, channels)
      invariant forall d :: i <= d < |devs| ==> devs'[d] == devs[d]
    {
      var m := WriteLrckPeriod(L, devs'[i], i2sMode, dataProtocol, res, channels);
      devs' := devs'[i := m];
    }
  }

  /** The PCM-form period write (lines 270-272) on devices 0 .. count-1; the other devices are kept. */
  method WritePcmPeriods(devs: seq<Device>, count: int, period: nat) returns (devs': seq<Device>)
    requires 0 <= count <= |devs|
    ensures |devs'| == |devs|
    ensures forall d :: 0 <= d < count ==> PeriodOnly(devs[d], devs'[d]) && Period(devs'[d]) == period % 1024
    ensures forall d :: count <= d < |devs| ==> devs'[d] == devs[d]
  {
    devs' := devs;
    for i := 0 to count
      invariant |devs'| == |devs|
      invariant forall d :: 0 <= d < i ==> PeriodOnly(devs[d], devs'[d]) && Period(devs'[d]) == period % 1024
      invariant forall d :: i <= d < |devs| ==> devs'[d] == devs[d]
    {
      var m := WritePcmPeriod(devs'[i], period);
      devs' := devs'[i := m];
    }
  }

  // ---------------------------------------------------------------------------
  // Fast path: the opposite direction is already streaming
  // ---------------------------------------------------------------------------

  /**
   * The fast path's clock check exactly as the driver writes it,
   * mclk / divider / rate / channels / resolution under integer division;
   * None where it divides by zero, which is undefined behaviour in C.
   */
  function FastRatioAsWritten(mclk: nat, divider: nat, rate: nat, channels: nat, res: nat): (r: Option<nat>)
    ensures r.None? <==> divider == 0 || rate == 0 || channels == 0 || res == 0
    ensures r.Some? ==> r.value == mclk / (divider * rate * channels * res)
  {
    if divider == 0 || rate == 0 || channels == 0 || res == 0 then None
    else
      DivDiv(mclk, divider, rate);
      DivDiv(mclk, divider * rate, channels);
      DivDiv(mclk, divider * rate * channels, res);
      Some(mclk / divider / rate / channels / res)
  }

  /**
   * The check the fast path passes: the divider is not zero and the running
   * bit clock mclk / divider carries exactly one frame of `channels` slots of
   * `res` bits per sample period, up to integer division.
   */
  predicate RatioMatches(mclk: nat, divider: nat, rate: nat, channels: nat, res: nat) {
    FastRatioAsWritten(mclk, divider, rate, channels, res) == Some(1)
  }

  /** The check holds exactly when mclk lies in [P, 2P) for P = divider * rate * channels * res. */
  lemma RatioMatchesMeaning(mclk: nat, divider: nat, rate: nat, channels: nat, res: nat)
    requires 0 < rate && 0 < channels && 0 < res
    ensures RatioMatches(mclk, divider, rate, channels, res) <==>
      var frame := divider * rate * channels * res;
      0 < divider && frame <= mclk < 2 * frame
  {
    if 0 < divider {
      MulPositive(divider, rate);
      MulPositive(divider * rate, channels);
      MulPositive(divider * rate * channels, res);
      QuotientOne(mclk, divider * rate * channels * res);
    }
  }

  /** The divider an I2S_BCLK_CTRL value selects, read as the fast path reads it: through its low four bits. */
  function RunningDivider(reg: bv8): nat {
    BclkDivs[(reg & 0x0F) as nat]
  }

  /**
   * Device `m'` after the fast path's writes on success: in use, it holds
   * the PCM-form period; out of use, its LRCK registers are as they were;
   * I2S_CTRL has IOEN turned to 2 (BCLK only, every other bit kept) when
   * `drive` holds and is unchanged otherwise; nothing else changes.
   */
  predicate FastWritten(L: Layout, m: Device, m': Device, inUse: bool, drive: bool, period: nat) {
    && m' == m.(i2sLrckCtrl1 := m'.i2sLrckCtrl1, i2sLrckCtrl2 := m'.i2sLrckCtrl2, i2sCtrl := m'.i2sCtrl)
    && (inUse ==> Period(m') == period % 1024 && m'.i2sLrckCtrl1 & !0x03 == m.i2sLrckCtrl1 & !0x03)
    && (!inUse ==> m'.i2sLrckCtrl1 == m.i2sLrckCtrl1 && m'.i2sLrckCtrl2 == m.i2sLrckCtrl2)
    && (drive ==> DrivesBclkOnly(L, m.i2sCtrl, m'.i2sCtrl))
    && (!drive ==> m'.i2sCtrl == m.i2sCtrl)
  }

  /**
   * The fast path after validation (lines 245-282), for a resolution of
   * `res` bits: the LRCK period write on every device in use; the clock
   * check against the divider the master's I2S_BCLK_CTRL selects, whose
   * failure is reported with that write in place; on success the PCM-form
   * period written whatever the serial format, the master turned to drive
   * BCLK only when bit LRCK_IOEN of its I2S_BCLK_CTRL value is set, and
   * sysclk_en cleared. The check rejects a zero divider instead of dividing
   * by it.
   */
  method FastCheck(L: Layout, p: Priv, res: nat, rate: nat, channels: nat) returns (o: Outcome)
    requires L.Valid() && p.Valid()
    requires 1 <= res && 1 <= channels
    ensures o.priv.Valid() && o.events == []
    ensures o.status == 0 || o.status == -EINVAL
    ensures o.status == 0 <==> RatioMatches(p.mclk, RunningDivider(p.devices[MasterIndex].i2sBclkCtrl), rate, channels, res)
    ensures if o.status == 0 then SameScalars(p.(sysclkEn := 0), o.priv) else SameScalars(p, o.priv)
    ensures o.status != 0 ==>
      forall d :: 0 <= d < MaxCodecs ==>
        var m, m' := p.devices[d], o.priv.devices[d];
        && (d < p.codecCnt ==> PeriodOnly(m, m') && PeriodSet(L, m, m', p.i2sMode, p.dataProtocol, res, channels))
        && (p.codecCnt <= d ==> m' == m)
    ensures o.status == 0 ==>
      forall d :: 0 <= d < MaxCodecs ==>
        FastWritten(L, p.devices[d], o.priv.devices[d], d < p.codecCnt,
                    d == MasterIndex && p.devices[MasterIndex].i2sBclkCtrl & (1 << Pos(L, LrckIoen)) != 0,
                    res * channels - 1)
  {
    var first := WriteLrckPeriods(L, p.devices, p.codecCnt, p.i2sMode, p.dataProtocol, res, channels);
    var reg := first[MasterIndex].i2sBclkCtrl;
    assert reg == p.devices[MasterIndex].i2sBclkCtrl;
    if !RatioMatches(p.mclk, RunningDivider(reg), rate, channels, res) {
      return Outcome(p.(devices := first), [], -EINVAL);
    }
    MulPositive(res, channels);
    var devs := FastCommit(L, p.devices, first, p.codecCnt, res * channels - 1, reg & (1 << Pos(L, LrckIoen)) != 0);
    o := Outcome(p.(devices := devs, sysclkEn := 0), [], 0);
  }

  /**
   * The fast path's writes after a passed check (lines 268-277), from the
   * state `first` the first period write left on `orig`: the PCM-form period
   * on every device in use, then the master's BCLK update when `drive`.
   */
  method FastCommit(L: Layout, orig: seq<Device>, first: seq<Device>, count: int, period: nat, drive: bool)
    returns (devs: seq<Device>)
    requires L.Valid()
    requires |orig| == MaxCodecs && |first| == MaxCodecs && 0 <= count <= MaxCodecs
    requires forall d :: 0 <= d < count ==> PeriodOnly(orig[d], first[d])
    requires forall d :: count <= d < MaxCodecs ==> first[d] == orig[d]
    ensures |devs| == MaxCodecs
    ensures forall d :: 0 <= d < MaxCodecs ==>
      FastWritten(L, orig[d], devs[d], d < count, d == MasterIndex && drive, period)
  {
    var second := WritePcmPeriods(first, count, period);
    devs := FastDrive(L, orig, first, second, count, period, drive);
  }

  /** The master's BCLK update on top of the two period writes, device by device. */
  method FastDrive(L: Layout, orig: seq<Device>, first: seq<Device>, second: seq<Device>,
                   count: int, period: nat, drive: bool)
    returns (devs: seq<Device>)
    requires L.Valid()
    requires |orig| == MaxCodecs && |first| == MaxCodecs && |second| == MaxCodecs && 0 <= count <= MaxCodecs
    requires forall d :: 0 <= d < count ==> PeriodOnly(orig[d], first[d])
    requires forall d :: count <= d < MaxCodecs ==> first[d] == orig[d]
    requires forall d :: 0 <= d < count ==> PeriodOnly(first[d], second[d]) && Period(second[d]) == period % 1024
    requires forall d :: count <= d < MaxCodecs ==> second[d] == first[d]
    ensures |devs| == MaxCodecs
    ensures forall d :: 0 <= d < MaxCodecs ==>
      FastWritten(L, orig[d], devs[d], d < count, d == MasterIndex && drive, period)
  {
    devs := DriveMaster(L, second, drive);
    FastDevices(L, orig, first, second, devs, count, period, drive);
  }

  /** Every device through the fast path's three steps. */
  lemma FastDevices(L: Layout, orig: seq<Device>, first: seq<Device>, second: seq<Device>, devs: seq<Device>,
                    count: int, period: nat, drive: bool)
    requires |orig| == MaxCodecs && |first| == MaxCodecs && |second| == MaxCodecs && |devs| == MaxCodecs
    requires 0 <= count <= MaxCodecs
    requires forall d :: 0 <= d < count ==> PeriodOnly(orig[d], first[d])
    requires forall d :: count <= d < MaxCodecs ==> first[d] == orig[d]
    requires forall d :: 0 <= d < count ==> PeriodOnly(first[d], second[d]) && Period(second[d]) == period % 1024
    requires forall d :: count <= d < MaxCodecs ==> second[d] == first[d]
    requires drive ==>
      && devs == second[MasterIndex := devs[MasterIndex]]
      && DrivesBclkOnly(L, second[MasterIndex].i2sCtrl, devs[MasterIndex].i2sCtrl)
      && devs[MasterIndex] == second[MasterIndex].(i2sCtrl := devs[MasterIndex].i2sCtrl)
    requires !drive ==> devs == second
    ensures forall d :: 0 <= d < MaxCodecs ==>
      FastWritten(L, orig[d], devs[d], d < count, d == MasterIndex && drive, period)
  {
    forall d | 0 <= d < MaxCodecs
      ensures FastWritten(L, orig[d], devs[d], d < count, d == MasterIndex && drive, period)
    {
      FastDevice(L, orig[d], first[d], second[d], devs[d], d < count, d == MasterIndex && drive, period);
    }
  }

  /**
   * The fast path (lines 186-282): validation with no writes, then the
   * clock check and period writes of FastCheck for the resolved resolution.
   */
  method FastPath(L: Layout, p: Priv, q: Request) returns (o: Outcome)
    requires L.Valid() && p.Valid() && ValidRequest(q)
    ensures o.priv.Valid() && o.events == []
    ensures o.status == 0 || o.status == -EINVAL
    ensures !Negotiate(p.dataProtocol, q).Resolved? ==> o == Outcome(p, [], -EINVAL)
    ensures o.status == 0 <==>
      && Negotiate(p.dataProtocol, q).Resolved?
      && RatioMatches(p.mclk, RunningDivider(p.devices[MasterIndex].i2sBclkCtrl), q.rate, q.channels,
                      ResolvedBits(p.dataProtocol, q))
    ensures if o.status == 0 then SameScalars(p.(sysclkEn := 0), o.priv) else SameScalars(p, o.priv)
    ensures Negotiate(p.dataProtocol, q).Resolved? && o.status != 0 ==>
      forall d :: 0 <= d < MaxCodecs ==>
        var m, m' := p.devices[d], o.priv.devices[d];
        && (d < p.codecCnt ==>
              PeriodOnly(m, m') &&
              PeriodSet(L, m, m', p.i2sMode, p.dataProtocol, ResolvedBits(p.dataProtocol, q), q.channels))
        && (p.codecCnt <= d ==> m' == m)
    ensures o.status == 0 ==>
      forall d :: 0 <= d < MaxCodecs ==>
        FastWritten(L, p.devices[d], o.priv.devices[d], d < p.codecCnt,
                    d == MasterIndex && p.devices[MasterIndex].i2sBclkCtrl & (1 << Pos(L, LrckIoen)) != 0,
                    ResolvedBits(p.dataProtocol, q) * q.channels - 1)
  {
    if !Negotiate(p.dataProtocol, q).Resolved? {
      return Outcome(p, [], -EINVAL);
    }
    o := FastCheck(L, p, ResolvedBits(p.dataProtocol, q), q.rate, q.channels);
  }

  /** One device through the fast path's three steps: the two period writes and the master's BCLK update. */
  lemma FastDevice(L: Layout, m: Device, m1: Device, m2: Device, m3: Device, inUse: bool, drive: bool, period: nat)
    requires inUse ==> PeriodOnly(m, m1) && PeriodOnly(m1, m2) && Period(m2) == period % 1024
    requires !inUse ==> m1 == m && m2 == m1
    requires drive ==> DrivesBclkOnly(L, m2.i2sCtrl, m3.i2sCtrl) && m3 == m2.(i2sCtrl := m3.i2sCtrl)
    requires !drive ==> m3 == m2
    ensures FastWritten(L, m, m3, inUse, drive, period)
  {
    if inUse {
      PeriodOnlyTwice(m, m1, m2);
    }
  }

  // ---------------------------------------------------------------------------
  // Full path: no opposite direction active
  // ---------------------------------------------------------------------------

  /**
   * I2S_CTRL value `v'` is `v` with LRCK no longer driven where BCLK was:
   * IOEN 3 (both clocks driven) becomes 2 (BCLK only), 0 and 1 stay, and
   * every bit but LRCK_IOEN is kept.
   */
  predicate Released(L: Layout, v: bv8, v': bv8) {
    && FieldOf(L, LrckIoen, v') == (if FieldOf(L, LrckIoen, v) >= 2 then 2 else FieldOf(L, LrckIoen, v))
    && v' & !(1 << Pos(L, LrckIoen)) == v & !(1 << Pos(L, LrckIoen))
  }

  /**
   * Lines 287-290 on the master: if I2S_CTRL has BCLK_IOEN set, the update
   * of `1 << LRCK_IOEN` to 0, so the CPU side sees a bit clock without
   * frames while its FIFOs are cleared.
   */
  method ReleaseLrck(L: Layout, m: Device) returns (m': Device)
    requires L.Valid()
    ensures Released(L, m.i2sCtrl, m'.i2sCtrl)
    ensures m' == m.(i2sCtrl := m'.i2sCtrl)
  {
    var v := m.i2sCtrl;
    BclkIoenBit(L, v);
    if v & (1 << L.bclkIoen) != 0 {
      m' := m.(i2sCtrl := UpdateBits(v, 1 << Pos(L, LrckIoen), 0x00));
      StopLrck(L, v);
    } else {
      m' := m;
    }
  }

  /** `1 << I2S | 1 << ADC_DIGITAL | 1 << MIC_OFFSET_CALIBRATION | 1 << ADC_ANALOG` (lines 398 and 400). */
  function ModuleBits(L: Layout): bv8 {
    (1 << L.modI2sPos) | (1 << L.modAdcDigitalPos) | (1 << L.modMicOffsetCalibrationPos) | (1 << L.modAdcAnalogPos)
  }

  /**
   * Lines 389-395: the BCLKDIV code for bclkdiv = mclk / (rate * channels *
   * resolution), the least code below 15 whose divider reaches it, else 15.
   */
  function DividerCode(mclk: nat, rate: nat, channels: nat, res: nat): (code: nat)
    requires 0 < rate && 0 < channels && 0 < res
    ensures code < |BclkDivs|
    ensures code < 15 ==> BclkDivs[code] >= mclk / (rate * channels * res)
    ensures forall j :: 0 <= j < code ==> BclkDivs[j] < mclk / (rate * channels * res)
  {
    MulPositive(rate, channels);
    MulPositive(rate * channels, res);
    BclkDivIndex(NatDiv(mclk, rate * channels * res))
  }

  /**
   * The chosen divider reaches the quotient exactly when the quotient is at
   * most 192, the largest divider; it is then the least table divider that
   * does, and every code below it falls short.
   */
  lemma DividerCodeChoice(mclk: nat, rate: nat, channels: nat, res: nat)
    requires 0 < rate && 0 < channels && 0 < res
    ensures var quotient, code := mclk / (rate * channels * res), DividerCode(mclk, rate, channels, res);
      && (BclkDivs[code] >= quotient <==> quotient <= 192)
      && (forall j :: 0 <= j < |BclkDivs| && BclkDivs[j] >= quotient ==> code <= j)
      && (forall j :: 0 <= j < code ==> BclkDivs[j] < quotient)
  {
    MulPositive(rate, channels);
    MulPositive(rate * channels, res);
    BclkDivChoice(NatDiv(mclk, rate * channels * res));
  }

  /** The table codes and the divider code a resolved request programs. */
  datatype Codes = Codes(res: nat, rate: nat, rc: bv8, tc: bv8, code: bv8)

  /**
   * The codes of a resolved request: the resolution and rate table entries
   * and the divider code for the group's mclk. The resolution is the
   * format's significant bit count and its code (bits - 4) / 4; the rate is
   * the scaled request rate and its code that rate's index in the table;
   * the divider code is DividerCode's choice, whose meaning
   * DividerCodeChoice states.
   */
  function CodesFor(p: Priv, q: Request): (c: Codes)
    requires p.Valid() && ValidRequest(q)
    requires Negotiate(p.dataProtocol, q).Resolved?
    ensures 8 <= c.res <= 32 && 8000 <= c.rate <= 96000
    ensures c.rc <= 7 && c.tc <= 9 && c.code <= 15
    ensures var n := Negotiate(p.dataProtocol, q);
      && c.res == SampleResolutions[n.resIndex].realVal && c.rc as nat == SampleResolutions[n.resIndex].regVal
      && c.rate == SampleRates[n.rateIndex].realVal && c.tc as nat == SampleRates[n.rateIndex].regVal
    ensures Some(c.res) == SignificantBits(q.format) && c.rc as nat == (c.res - 4) / 4
    ensures c.rate == RateKey(p.dataProtocol, q.rate)
    ensures c.tc as nat < |SampleRates| && SampleRates[c.tc as nat].realVal == c.rate
    ensures c.code as nat == DividerCode(p.mclk, c.rate, q.channels, c.res)
  {
    ResolvedBounds(p.dataProtocol, q);
    NegotiateSpec(p.dataProtocol, q);
    SampleResolutionTableShape();
    SampleRateTableShape();
    var n := Negotiate(p.dataProtocol, q);
    var res, rate := SampleResolutions[n.resIndex].realVal, SampleRates[n.rateIndex].realVal;
    var rc, tc, code := SampleResolutions[n.resIndex].regVal, SampleRates[n.rateIndex].regVal,
                        DividerCode(p.mclk, rate, q.channels, res);
    SmallByte(rc, 7);
    SmallByte(tc, 9);
    SmallByte(code, 15);
    Codes(res, rate, rc as bv8, tc as bv8, code as bv8)
  }

  /** The I2S_FMT_CTRL2 fields of lines 373-375: SAMPLE_RESOLUTION and SLOT_WIDTH_SEL. */
  const ResolutionFields: seq<Field> := [SampleResolution, SlotWidthSel]

  /** A resolution code fits both three-bit fields, which lie in one register. */
  lemma ResolutionFits(rc: bv8)
    requires rc <= 7
    ensures SameRegister(ResolutionFields) && ValuesFit(ResolutionFields, [rc, rc])
  {
  }

  /** The resolution code reads back from both fields. */
  lemma ResolutionFieldsRead(L: Layout, v': bv8, rc: bv8)
    requires L.Valid()
    requires FieldsHold(L, ResolutionFields, [rc, rc], v')
    ensures FieldOf(L, SampleResolution, v') == rc && FieldOf(L, SlotWidthSel, v') == rc
  {
    assert FieldOf(L, ResolutionFields[0], v') == rc && FieldOf(L, ResolutionFields[1], v') == rc;
  }

  /**
   * Lines 373-375 on one device: the resolution code into SAMPLE_RESOLUTION
   * and SLOT_WIDTH_SEL of I2S_FMT_CTRL2, every other bit kept.
   */
  method WriteResolution(L: Layout, v: bv8, rc: bv8) returns (r: bv8)
    requires L.Valid() && rc <= 7
    ensures FieldOf(L, SampleResolution, r) == rc && FieldOf(L, SlotWidthSel, r) == rc
    ensures r & !MaskOfFields(L, ResolutionFields) == v & !MaskOfFields(L, ResolutionFields)
  {
    ResolutionFits(rc);
    r := UpdateFields(L, v, ResolutionFields, [rc, rc]);
    ResolutionFieldsRead(L, r, rc);
  }

  /** Line 381 on one device: the rate code into ADC_FS_I2S1 of ADC_SPRC, every other bit kept. */
  method WriteAdcRate(L: Layout, v: bv8, tc: bv8) returns (r: bv8)
    requires L.Valid() && tc <= 15
    ensures FieldOf(L, AdcFsI2s1, r) == tc
    ensures r & !MaskFor(L, AdcFsI2s1) == v & !MaskFor(L, AdcFsI2s1)
  {
    r := UpdateFields(L, v, [AdcFsI2s1], [tc]);
  }

  /**
   * Line 395 on one device: the divider code into BCLKDIV of I2S_BCLK_CTRL,
   * every other bit, the BCLK polarity among them, kept.
   */
  method WriteBclkDiv(L: Layout, v: bv8, code: bv8) returns (r: bv8)
    requires L.Valid() && code <= 15
    ensures FieldOf(L, BclkDiv, r) == code
    ensures FieldOf(L, BclkPolarity, r) == FieldOf(L, BclkPolarity, v)
    ensures r & !MaskFor(L, BclkDiv) == v & !MaskFor(L, BclkDiv)
  {
    r := UpdateFields(L, v, [BclkDiv], [code]);
  }

  /**
   * What one device holds after the clock program, relative to `m`: the
   * resolution code in SAMPLE_RESOLUTION and SLOT_WIDTH_SEL, the rate code
   * in ADC_FS_I2S1, all four high-pass filters on, the divider code in
   * BCLKDIV with the BCLK polarity kept, the module byte in MOD_CLK_EN and
   * MOD_RST_CTRL, and every bit outside the written fields kept.
   */
  predicate Clocked(L: Layout, m: Device, m': Device, c: Codes, bits: bv8) {
    && FieldOf(L, SampleResolution, m'.i2sFmtCtrl2) == c.rc
    && FieldOf(L, SlotWidthSel, m'.i2sFmtCtrl2) == c.rc
    && m'.i2sFmtCtrl2 & !MaskOfFields(L, ResolutionFields) == m.i2sFmtCtrl2 & !MaskOfFields(L, ResolutionFields)
    && FieldOf(L, AdcFsI2s1, m'.adcSprc) == c.tc
    && m'.adcSprc & !MaskFor(L, AdcFsI2s1) == m.adcSprc & !MaskFor(L, AdcFsI2s1)
    && m'.hpfEn == 0x0F
    && FieldOf(L, BclkDiv, m'.i2sBclkCtrl) == c.code
    && FieldOf(L, BclkPolarity, m'.i2sBclkCtrl) == FieldOf(L, BclkPolarity, m.i2sBclkCtrl)
    && m'.i2sBclkCtrl & !MaskFor(L, BclkDiv) == m.i2sBclkCtrl & !MaskFor(L, BclkDiv)
    && m'.modClkEn == bits && m'.modRstCtrl == bits
  }

  /**
   * Lines 373-400 on one device: FMT_CTRL2, ADC_SPRC, HPF_EN, BCLKDIV,
   * MOD_CLK_EN and MOD_RST_CTRL, in the driver's order. Nothing but these
   * registers changes.
   */
  method ClockFields(L: Layout, m: Device, c: Codes, bits: bv8) returns (m': Device)
    requires L.Valid() && c.rc <= 7 && c.tc <= 15 && c.code <= 15
    ensures Clocked(L, m, m', c, bits)
    ensures m' == m.(i2sFmtCtrl2 := m'.i2sFmtCtrl2, adcSprc := m'.adcSprc, hpfEn := m'.hpfEn,
                     i2sBclkCtrl := m'.i2sBclkCtrl, modClkEn := m'.modClkEn, modRstCtrl := m'.modRstCtrl)
  {
    var fmt2 := WriteResolution(L, m.i2sFmtCtrl2, c.rc);
    var sprc := WriteAdcRate(L, m.adcSprc, c.tc);
    var bclk := WriteBclkDiv(L, m.i2sBclkCtrl, c.code);
    m' := m.(i2sFmtCtrl2 := fmt2, adcSprc := sprc, hpfEn := 0x0F, i2sBclkCtrl := bclk,
             modClkEn := bits, modRstCtrl := bits);
  }

  /** A period once set stays set through writes that leave both LRCK registers alone. */
  lemma PeriodSetKept(L: Layout, m: Device, m1: Device, m': Device, i2sMode: bv8, dataProtocol: bv8, res: nat, channels: nat)
    requires PeriodSet(L, m, m1, i2sMode, dataProtocol, res, channels)
    requires m'.i2sLrckCtrl1 == m1.i2sLrckCtrl1 && m'.i2sLrckCtrl2 == m1.i2sLrckCtrl2
    ensures PeriodSet(L, m, m', i2sMode, dataProtocol, res, channels)
  {
  }

  /** The release of lines 287-290 on the master of the group; every other device is kept. */
  method ReleaseMaster(L: Layout, devs: seq<Device>) returns (released: seq<Device>)
    requires L.Valid() && |devs| == MaxCodecs
    ensures |released| == MaxCodecs
    ensures Released(L, devs[MasterIndex].i2sCtrl, released[MasterIndex].i2sCtrl)
    ensures forall d :: 0 <= d < MaxCodecs && d != MasterIndex ==> released[d].i2sCtrl == devs[d].i2sCtrl
    ensures forall d :: 0 <= d < MaxCodecs ==> released[d] == devs[d].(i2sCtrl := released[d].i2sCtrl)
  {
    var master := ReleaseLrck(L, devs[MasterIndex]);
    released := devs[MasterIndex := master];
  }

  /**
   * What the full path's program leaves on one device in use: the period
   * of PeriodSet with the bits of I2S_LRCK_CTRL1 above the period kept, and
   * the clock fields of Clocked.
   */
  predicate Programmed(L: Layout, m: Device, m': Device, i2sMode: bv8, dataProtocol: bv8, channels: nat, c: Codes, bits: bv8) {
    && m'.i2sLrckCtrl1 & !0x03 == m.i2sLrckCtrl1 & !0x03
    && PeriodSet(L, m, m', i2sMode, dataProtocol, c.res, channels)
    && Clocked(L, m, m', c, bits)
  }

  /** The registers the full path never writes on a device: I2S_FMT_CTRL1 and I2S_FMT_CTRL3. */
  predicate FormatKept(m: Device, m': Device) {
    m'.i2sFmtCtrl1 == m.i2sFmtCtrl1 && m'.i2sFmtCtrl3 == m.i2sFmtCtrl3
  }

  /** The BCLKs per frame the PLL is configured for: resolution times channels (line 384). */
  function FrameBits(c: Codes, channels: nat): nat {
    c.res * channels
  }

  /**
   * Lines 351-400 on one device, after validation: the LRCK period and then
   * the clock fields. I2S_CTRL, I2S_FMT_CTRL1 and I2S_FMT_CTRL3 are kept.
   */
  method ClockDevice(L: Layout, m: Device, i2sMode: bv8, dataProtocol: bv8, channels: nat, c: Codes, bits: bv8)
    returns (m': Device)
    requires L.Valid()
    requires 1 <= c.res && 1 <= channels
    requires c.rc <= 7 && c.tc <= 15 && c.code <= 15
    ensures Programmed(L, m, m', i2sMode, dataProtocol, channels, c, bits)
    ensures FormatKept(m, m') && m'.i2sCtrl == m.i2sCtrl
  {
    var m1 := WriteLrckPeriod(L, m, i2sMode, dataProtocol, c.res, channels);
    m' := ClockFields(L, m1, c, bits);
    PeriodSetKept(L, m, m1, m', i2sMode, dataProtocol, c.res, channels);
  }

  /** The loop of lines 351-400 over the devices in use; the others are untouched. */
  method ClockDevices(L: Layout, devs: seq<Device>, count: int, i2sMode: bv8, dataProtocol: bv8, channels: nat,
                      c: Codes, bits: bv8)
    returns (devs': seq<Device>)
    requires L.Valid() && 0 <= count <= |devs|
    requires 1 <= c.res && 1 <= channels
    requires c.rc <= 7 && c.tc <= 15 && c.code <= 15
    ensures |devs'| == |devs|
    ensures forall d :: 0 <= d < count ==>
      Programmed(L, devs[d], devs'[d], i2sMode, dataProtocol, channels, c, bits)
      && FormatKept(devs[d], devs'[d]) && devs'[d].i2sCtrl == devs[d].i2sCtrl
    ensures forall d :: count <= d < |devs| ==> devs'[d] == devs[d]
  {
    devs' := devs;
    for i := 0 to count
      invariant |devs'| == |devs|
      invariant forall d :: 0 <= d < i ==>
        Programmed(L, devs[d], devs'[d], i2sMode, dataProtocol, channels, c, bits)
        && FormatKept(devs[d], devs'[d]) && devs'[d].i2sCtrl == devs[d].i2sCtrl
      invariant forall d :: i <= d < |devs| ==> devs'[d] == devs[d]
    {
      var m := ClockDevice(L, devs'[i], i2sMode, dataProtocol, channels, c, bits);
      devs' := devs'[i := m];
    }
  }

  /**
   * The full path's program, run on the group whose master had its LRCK
   * released, stated against the group as it was before the release.
   */
  lemma FullDevices(L: Layout, orig: seq<Device>, released: seq<Device>, devs: seq<Device>, count: int,
                    i2sMode: bv8, dataProtocol: bv8, channels: nat, c: Codes, bits: bv8)
    requires |orig| == MaxCodecs && |released| == MaxCodecs && |devs| == MaxCodecs && 0 <= count <= MaxCodecs
    requires forall d :: 0 <= d < MaxCodecs ==> released[d] == orig[d].(i2sCtrl := released[d].i2sCtrl)
    requires forall d :: 0 <= d < MaxCodecs && d != MasterIndex ==> released[d].i2sCtrl == orig[d].i2sCtrl
    requires forall d :: 0 <= d < count ==>
      Programmed(L, released[d], devs[d], i2sMode, dataProtocol, channels, c, bits)
      && FormatKept(released[d], devs[d]) && devs[d].i2sCtrl == released[d].i2sCtrl
    requires forall d :: count <= d < MaxCodecs ==> devs[d] == released[d]
    ensures forall d :: 0 <= d < count ==>
      Programmed(L, orig[d], devs[d], i2sMode, dataProtocol, channels, c, bits) && FormatKept(orig[d], devs[d])
    ensures forall d :: count <= d < MaxCodecs ==> devs[d] == orig[d].(i2sCtrl := devs[d].i2sCtrl)
    ensures forall d :: 0 <= d < MaxCodecs && d != MasterIndex ==> devs[d].i2sCtrl == orig[d].i2sCtrl
    ensures devs[MasterIndex].i2sCtrl == released[MasterIndex].i2sCtrl
  {
  }

  /**
   * The full path (lines 283-407): the master's LRCK output released;
   * validation, whose failure is reported with only that release in place;
   * then the clock program on every device in use and the PLL configured for
   * the table rate and res * channels BCLKs per frame. I2S_CTRL of the other
   * devices and every register of the devices out of use are kept.
   */
  method FullPath(L: Layout, p: Priv, q: Request) returns (o: Outcome)
    requires L.Valid() && p.Valid() && ValidRequest(q)
    ensures o.priv.Valid() && SameScalars(p, o.priv)
    ensures o.status == 0 <==> Negotiate(p.dataProtocol, q).Resolved?
    ensures o.status == 0 || o.status == -EINVAL
    ensures Released(L, p.devices[MasterIndex].i2sCtrl, o.priv.devices[MasterIndex].i2sCtrl)
    ensures forall d :: 0 <= d < MaxCodecs && d != MasterIndex ==>
      o.priv.devices[d].i2sCtrl == p.devices[d].i2sCtrl
    ensures forall d :: p.codecCnt <= d < MaxCodecs ==>
      o.priv.devices[d] == p.devices[d].(i2sCtrl := o.priv.devices[d].i2sCtrl)
    ensures o.status != 0 ==> o.events == []
    ensures o.status != 0 ==> forall d :: 0 <= d < MaxCodecs ==>
      o.priv.devices[d] == p.devices[d].(i2sCtrl := o.priv.devices[d].i2sCtrl)
    ensures o.status == 0 ==>
      var c := CodesFor(p, q);
      && o.events == [PllConfigured(c.rate, FrameBits(c, q.channels))]
      && forall d :: 0 <= d < p.codecCnt ==>
        Programmed(L, p.devices[d], o.priv.devices[d], p.i2sMode, p.dataProtocol, q.channels, c, ModuleBits(L))
        && FormatKept(p.devices[d], o.priv.devices[d])
  {
    var released := ReleaseMaster(L, p.devices);
    if !Negotiate(p.dataProtocol, q).Resolved? {
      return Outcome(p.(devices := released), [], -EINVAL);
    }
    o := FullCommit(L, p, q, released);
  }

  /**
   * The full path once validation passed: the clock program of FullProgram
   * on the released group, then the PLL configured once for the table rate
   * and res * channels BCLKs per frame.
   */
  method FullCommit(L: Layout, p: Priv, q: Request, released: seq<Device>) returns (o: Outcome)
    requires L.Valid() && p.Valid() && ValidRequest(q)
    requires Negotiate(p.dataProtocol, q).Resolved?
    requires |released| == MaxCodecs
    requires forall d :: 0 <= d < MaxCodecs ==> released[d] == p.devices[d].(i2sCtrl := released[d].i2sCtrl)
    requires forall d :: 0 <= d < MaxCodecs && d != MasterIndex ==> released[d].i2sCtrl == p.devices[d].i2sCtrl
    ensures o.priv.Valid() && SameScalars(p, o.priv) && o.status == 0
    ensures o.priv.devices[MasterIndex].i2sCtrl == released[MasterIndex].i2sCtrl
    ensures forall d :: 0 <= d < MaxCodecs && d != MasterIndex ==>
      o.priv.devices[d].i2sCtrl == p.devices[d].i2sCtrl
    ensures forall d :: p.codecCnt <= d < MaxCodecs ==>
      o.priv.devices[d] == p.devices[d].(i2sCtrl := o.priv.devices[d].i2sCtrl)
    ensures var c := CodesFor(p, q);
      && o.events == [PllConfigured(c.rate, FrameBits(c, q.channels))]
      && forall d :: 0 <= d < p.codecCnt ==>
        Programmed(L, p.devices[d], o.priv.devices[d], p.i2sMode, p.dataProtocol, q.channels, c, ModuleBits(L))
        && FormatKept(p.devices[d], o.priv.devices[d])
  {
    var devs := FullProgram(L, p, q, released);
    var c := CodesFor(p, q);
    o := Outcome(p.(devices := devs), [PllConfigured(c.rate, FrameBits(c, q.channels))], 0);
  }

  /**
   * Lines 351-400 once validation passed, on the group `released` whose
   * master had its LRCK released: the clock program on every device in use,
   * stated against the group as it was before the release.
   */
  method FullProgram(L: Layout, p: Priv, q: Request, released: seq<Device>) returns (devs: seq<Device>)
    requires L.Valid() && p.Valid() && ValidRequest(q)
    requires Negotiate(p.dataProtocol, q).Resolved?
    requires |released| == MaxCodecs
    requires forall d :: 0 <= d < MaxCodecs ==> released[d] == p.devices[d].(i2sCtrl := released[d].i2sCtrl)
    requires forall d :: 0 <= d < MaxCodecs && d != MasterIndex ==> released[d].i2sCtrl == p.devices[d].i2sCtrl
    ensures |devs| == MaxCodecs
    ensures forall d :: 0 <= d < p.codecCnt ==>
      Programmed(L, p.devices[d], devs[d], p.i2sMode, p.dataProtocol, q.channels, CodesFor(p, q), ModuleBits(L))
      && FormatKept(p.devices[d], devs[d])
    ensures forall d :: p.codecCnt <= d < MaxCodecs ==> devs[d] == p.devices[d].(i2sCtrl := devs[d].i2sCtrl)
    ensures forall d :: 0 <= d < MaxCodecs && d != MasterIndex ==> devs[d].i2sCtrl == p.devices[d].i2sCtrl
    ensures devs[MasterIndex].i2sCtrl == released[MasterIndex].i2sCtrl
  {
    var c := CodesFor(p, q);
    var bits := ModuleBits(L);
    devs := ClockDevices(L, released, p.codecCnt, p.i2sMode, p.dataProtocol, q.channels, c, bits);
    FullDevices(L, p.devices, released, devs, p.codecCnt, p.i2sMode, p.dataProtocol, q.channels, c, bits);
  }

  // ---------------------------------------------------------------------------
  // The entry point
  // ---------------------------------------------------------------------------

  /**
   * pcm5102a_hw_params (lines 164-407): the fast path when the opposite
   * direction streams, else the full path. An unsupported format, a rate
   * matching no table entry after the encoding factor, or 8 channels at
   * 96 kHz is rejected with -EINVAL on both paths, the fast path having
   * written nothing.
   *
   * With the opposite direction streaming (the fast path), the call
   * succeeds exactly when the running bit clock matches the request; a
   * mismatch leaves the period write in place; success rewrites the period
   * in PCM form, drives BCLK from the master when its I2S_BCLK_CTRL says so
   * and clears sysclk_en. The PLL is not configured and I2S_BCLK_CTRL,
   * I2S_FMT_CTRL2, ADC_SPRC, HPF_EN, MOD_CLK_EN and MOD_RST_CTRL keep their
   * contents on every device.
   *
   * Otherwise (the full path), the master's LRCK is released whatever the
   * outcome; a rejection writes nothing else; success programs every device
   * in use with the codes of CodesFor and configures the PLL once.
   */
  method Configure(L: Layout, p: Priv, q: Request) returns (o: Outcome)
    requires L.Valid() && p.Valid() && ValidRequest(q)
    ensures o.priv.Valid() && SameScalars(p.(sysclkEn := o.priv.sysclkEn), o.priv)
    ensures o.status == 0 || o.status == -EINVAL
    ensures !Negotiate(p.dataProtocol, q).Resolved? ==> o.status == -EINVAL && o.events == []
    ensures !Negotiate(p.dataProtocol, q).Resolved? && OppositeActive(q) ==> o.priv == p
    // The fast path.
    ensures OppositeActive(q) ==> o.events == []
    ensures OppositeActive(q) ==>
      (o.status == 0 <==>
        && Negotiate(p.dataProtocol, q).Resolved?
        && RatioMatches(p.mclk, RunningDivider(p.devices[MasterIndex].i2sBclkCtrl), q.rate, q.channels,
                        ResolvedBits(p.dataProtocol, q)))
    ensures OppositeActive(q) ==>
      if o.status == 0 then SameScalars(p.(sysclkEn := 0), o.priv) else SameScalars(p, o.priv)
    ensures OppositeActive(q) && Negotiate(p.dataProtocol, q).Resolved? && o.status != 0 ==>
      forall d :: 0 <= d < MaxCodecs ==>
        var m, m' := p.devices[d], o.priv.devices[d];
        && (d < p.codecCnt ==>
              PeriodOnly(m, m') &&
              PeriodSet(L, m, m', p.i2sMode, p.dataProtocol, ResolvedBits(p.dataProtocol, q), q.channels))
        && (p.codecCnt <= d ==> m' == m)
    ensures OppositeActive(q) && o.status == 0 ==>
      forall d :: 0 <= d < MaxCodecs ==>
        FastWritten(L, p.devices[d], o.priv.devices[d], d < p.codecCnt,
                    d == MasterIndex && p.devices[MasterIndex].i2sBclkCtrl & (1 << Pos(L, LrckIoen)) != 0,
                    ResolvedBits(p.dataProtocol, q) * q.channels - 1)
    ensures OppositeActive(q) ==>
      forall d :: 0 <= d < MaxCodecs ==>
        var m, m' := p.devices[d], o.priv.devices[d];
        && m'.i2sBclkCtrl == m.i2sBclkCtrl && m'.i2sFmtCtrl2 == m.i2sFmtCtrl2 && m'.adcSprc == m.adcSprc
        && m'.hpfEn == m.hpfEn && m'.modClkEn == m.modClkEn && m'.modRstCtrl == m.modRstCtrl
    // The full path.
    ensures !OppositeActive(q) ==> (o.status == 0 <==> Negotiate(p.dataProtocol, q).Resolved?)
    ensures !OppositeActive(q) ==> SameScalars(p, o.priv)
    ensures !OppositeActive(q) ==>
      Released(L, p.devices[MasterIndex].i2sCtrl, o.priv.devices[MasterIndex].i2sCtrl)
    ensures !OppositeActive(q) ==>
      forall d :: 0 <= d < MaxCodecs && d != MasterIndex ==> o.priv.devices[d].i2sCtrl == p.devices[d].i2sCtrl
    ensures !OppositeActive(q) ==>
      forall d :: p.codecCnt <= d < MaxCodecs ==>
        o.priv.devices[d] == p.devices[d].(i2sCtrl := o.priv.devices[d].i2sCtrl)
    ensures !OppositeActive(q) && o.status != 0 ==>
      forall d :: 0 <= d < MaxCodecs ==> o.priv.devices[d] == p.devices[d].(i2sCtrl := o.priv.devices[d].i2sCtrl)
    ensures !OppositeActive(q) && o.status == 0 ==>
      var c := CodesFor(p, q);
      && o.events == [PllConfigured(c.rate, FrameBits(c, q.channels))]
      && forall d :: 0 <= d < p.codecCnt ==>
        Programmed(L, p.devices[d], o.priv.devices[d], p.i2sMode, p.dataProtocol, q.channels, c, ModuleBits(L))
        && FormatKept(p.devices[d], o.priv.devices[d])
  {
    if OppositeActive(q) {
      o := FastPath(L, p, q);
    } else {
      o := FullPath(L, p, q);
    }
  }

  /**
   * 48 kHz, S16_LE, two channels, no encoding and a 24.576 MHz mclk with no
   * opposite stream: the request resolves to the 16-bit and 48 kHz entries,
   * resolution code 3, rate code 8, BCLKDIV code 7 (divider 16), so the full
   * path configures the PLL for 48000 Hz at 32 BCLKs per frame.
   */
  lemma WorkedExample(p: Priv)
    requires p.Valid()
    requires p.dataProtocol == 0 && p.mclk == Freq24576K
    ensures var q := Request(Playback, false, false, S16Le, 48000, 2);
      && ValidRequest(q) && !OppositeActive(q)
      && Negotiate(p.dataProtocol, q) == Resolved(2, 8)
      && CodesFor(p, q) == Codes(16, 48000, 3, 8, 7)
      && BclkDivs[7] == 16
  {
    assert RateKey(0, 48000) == 48000;
    FindRateSupported(48000);
    assert NatDiv(Freq24576K, 48000 * 2 * 16) == 16;
  }

  /**
   * The fast path divides by the table entry the low four bits of the
   * master's I2S_BCLK_CTRL select, and entry 0 is 0. Those bits are 0 after
   * the full path has chosen code 0, which it does whenever mclk is below
   * rate * channels * resolution: 11.2896 MHz against 48 kHz, 8 channels of
   * 32 bits. The check as written then divides by zero.
   */
  lemma ZeroDividerReachable()
    ensures DividerCode(11289600, 48000, 8, 32) == 0
    ensures RunningDivider(0x00) == 0
    ensures FastRatioAsWritten(11289600, RunningDivider(0x00), 48000, 8, 32).None?
  {
    assert NatDiv(11289600, 48000 * 8 * 32) == 0;
  }

  /**
   * The same request carried through the full path's BCLK_CTRL write. With
   * BCLKDIV at bit 0, as ac108.h places it, any master register the full path
   * leaves behind for 11.2896 MHz and 48 kHz with 8 channels of S32_LE
   * selects divider 0, so the next fast-path check as written divides by zero.
   */
  lemma ZeroDividerAfterFullPath(L: Layout, p: Priv, m': Device)
    requires L.bclkDivPos == 0
    requires p.Valid() && p.dataProtocol == 0 && p.mclk == 11289600
    requires var q := Request(Capture, false, false, S32Le, 48000, 8);
      && ValidRequest(q) && Negotiate(p.dataProtocol, q).Resolved?
      && Clocked(L, p.devices[MasterIndex], m', CodesFor(p, q), ModuleBits(L))
    ensures RunningDivider(m'.i2sBclkCtrl) == 0
    ensures FastRatioAsWritten(p.mclk, RunningDivider(m'.i2sBclkCtrl), 48000, 8, 32).None?
  {
    ZeroCodeChosen(p);
    assert FieldAt(m'.i2sBclkCtrl, 0, 4) == 0;
    BclkDivZeroAtBitZero(m'.i2sBclkCtrl);
  }

  /** For that request the full path's codes carry BCLKDIV code 0. */
  lemma ZeroCodeChosen(p: Priv)
    requires p.Valid() && p.dataProtocol == 0 && p.mclk == 11289600
    ensures var q := Request(Capture, false, false, S32Le, 48000, 8);
      && ValidRequest(q) && Negotiate(p.dataProtocol, q).Resolved?
      && CodesFor(p, q).code == 0
  {
    var q := Request(Capture, false, false, S32Le, 48000, 8);
    FindRateSupported(48000);
    var c := CodesFor(p, q);
    assert c.rate == 48000 && c.res == 32;
    ZeroDividerReachable();
  }

  /** A register whose four bits from bit 0, where ac108.h puts BCLKDIV, are 0 selects the zero divider. */
  lemma BclkDivZeroAtBitZero(v: bv8)
    requires FieldAt(v, 0, 4) == 0
    ensures RunningDivider(v) == 0
  {
    assert v & 0x0F == 0;
  }
}
