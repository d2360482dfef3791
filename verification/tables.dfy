/**
 * The driver's static lookup tables: sample rate to rate code, sample
 * resolution to resolution code, and the BCLK divider table, with the
 * searches the driver runs over them.
 */
module Tables {
  import opened Options

  /** struct real_val_to_reg_val: a real-world value and its register code. */
  datatype RealToReg = RealToReg(realVal: nat, regVal: nat)

  /** ac108_sample_rate: sample rate in Hz to ADC_FS code. */
  const SampleRates: seq<RealToReg> := [
    RealToReg(8000, 0),
    RealToReg(11025, 1),
    RealToReg(12000, 2),
    RealToReg(16000, 3),
    RealToReg(22050, 4),
    RealToReg(24000, 5),
    RealToReg(32000, 6),
    RealToReg(44100, 7),
    RealToReg(48000, 8),
    RealToReg(96000, 9)
  ]

  /** ac108_samp_res: sample resolution in bits to resolution code. */
  const SampleResolutions: seq<RealToReg> := [
    RealToReg(8, 1),
    RealToReg(12, 2),
    RealToReg(16, 3),
    RealToReg(20, 4),
    RealToReg(24, 5),
    RealToReg(28, 6),
    RealToReg(32, 7)
  ]

  /** ac108_bclkdivs: the divider each BCLKDIV code selects. */
  const BclkDivs: seq<nat> := [
     0,   1,   2,   4,
     6,   8,  12,  16,
    24,  32,  48,  64,
    96, 128, 176, 192
  ]

  /** Rates ascend strictly and each rate's code is its index. */
  lemma SampleRateTableShape()
    ensures |SampleRates| == 10
    ensures forall i :: 0 <= i < |SampleRates| ==> SampleRates[i].regVal == i
    ensures forall i, j :: 0 <= i < j < |SampleRates| ==> SampleRates[i].realVal < SampleRates[j].realVal
  {
  }

  /** Resolutions step by four bits from 8, and each code is its index plus one. */
  lemma SampleResolutionTableShape()
    ensures |SampleResolutions| == 7
    ensures forall i :: 0 <= i < |SampleResolutions| ==>
      SampleResolutions[i].realVal == 8 + 4 * i && SampleResolutions[i].regVal == i + 1
  {
  }

  /** Sixteen dividers, one per 4-bit BCLKDIV code, ascending strictly from 0 to 192. */
  lemma BclkDivTableShape()
    ensures |BclkDivs| == 16
    ensures BclkDivs[0] == 0 && BclkDivs[15] == 192
    ensures forall i, j :: 0 <= i < j < |BclkDivs| ==> BclkDivs[i] < BclkDivs[j]
  {
  }

  /** The sample formats the driver tells apart (SNDRV_PCM_FORMAT_*). */
  datatype SampleFormat = S8 | S16Le | S20_3Le | S24Le | S32Le | OtherFormat(code: nat)

  /** The number of significant bits per sample of each supported format. */
  function SignificantBits(f: SampleFormat): Option<nat> {
    match f
    case S8 => Some(8)
    case S16Le => Some(16)
    case S20_3Le => Some(20)
    case S24Le => Some(24)
    case S32Le => Some(32)
    case OtherFormat(_) => None
  }

  /**
   * The switch on params_format: the index into ac108_samp_res, which is the
   * entry whose resolution is the format's significant bit count; None for
   * an unsupported format.
   */
  function ResolutionIndex(f: SampleFormat): (r: Option<nat>)
    ensures r.None? <==> SignificantBits(f).None?
    ensures r.Some? ==>
      r.value < |SampleResolutions| && SampleResolutions[r.value].realVal == SignificantBits(f).value
  {
    match f
    case S8 => Some(0)
    case S16Le => Some(2)
    case S20_3Le => Some(3)
    case S24Le => Some(4)
    case S32Le => Some(6)
    case OtherFormat(_) => None
  }

  /** The 12-bit and 28-bit entries (codes 2 and 6) are never selected. */
  lemma ResolutionCodesSkipped(f: SampleFormat)
    ensures ResolutionIndex(f).Some? ==>
      var code := SampleResolutions[ResolutionIndex(f).value].regVal;
      code != 2 && code != 6
  {
  }

  /** Every table rate lies between 8000 and 96000 Hz. */
  lemma SampleRateBounds()
    ensures forall i :: 0 <= i < |SampleRates| ==> 8000 <= SampleRates[i].realVal <= 96000
  {
  }

  /** The rate-table search from index `i` on. */
  function FindRateFrom(target: nat, i: nat): (r: Option<nat>)
    requires i <= |SampleRates|
    decreases |SampleRates| - i
    ensures r.Some? ==> i <= r.value < |SampleRates| && SampleRates[r.value].realVal == target
  {
    if i == |SampleRates| then None
    else if SampleRates[i].realVal == target then Some(i)
    else FindRateFrom(target, i + 1)
  }

  /** The search from `i` fails exactly when no entry from `i` on matches, and otherwise finds the first match. */
  lemma {:induction false} FindRateFromSpec(target: nat, i: nat)
    requires i <= |SampleRates|
    decreases |SampleRates| - i
    ensures FindRateFrom(target, i).None? <==> forall j :: i <= j < |SampleRates| ==> SampleRates[j].realVal != target
    ensures FindRateFrom(target, i).Some? ==>
      forall j :: i <= j < FindRateFrom(target, i).value ==> SampleRates[j].realVal != target
  {
    if i < |SampleRates| {
      FindRateFromSpec(target, i + 1);
    }
  }

  /**
   * The loop over ac108_sample_rate: the first index whose rate is `target`,
   * or None when no entry matches.
   */
  function FindRate(target: nat): (r: Option<nat>)
    ensures r.Some? ==> r.value < |SampleRates| && SampleRates[r.value].realVal == target
    ensures r.None? <==> forall j :: 0 <= j < |SampleRates| ==> SampleRates[j].realVal != target
    ensures r.Some? ==> forall j :: 0 <= j < r.value ==> SampleRates[j].realVal != target
  {
    FindRateFromSpec(target, 0);
    FindRateFrom(target, 0)
  }

  /** The rates the table supports, as a set. */
  function SupportedRates(): set<nat> {
    {8000, 11025, 12000, 16000, 22050, 24000, 32000, 44100, 48000, 96000}
  }

  /** The search succeeds exactly on the supported rates. */
  lemma FindRateSupported(target: nat)
    ensures FindRate(target).Some? <==> target in SupportedRates()
  {
    FindRateFromSpec(target, 0);
    var rates := seq(|SampleRates|, j requires 0 <= j < |SampleRates| => SampleRates[j].realVal);
    assert rates == [8000, 11025, 12000, 16000, 22050, 24000, 32000, 44100, 48000, 96000];
    if target in SupportedRates() {
      assert target in rates;
    }
  }

  /** The divider-table search from index `i` on, over codes below 15. */
  function BclkDivIndexFrom(q: nat, i: nat): (r: nat)
    requires i <= 15
    decreases 15 - i
    ensures i <= r <= 15
  {
    if i == 15 then 15
    else if BclkDivs[i] >= q then i
    else BclkDivIndexFrom(q, i + 1)
  }

  /** The search stops at the first divider from `i` on that reaches `q`, and at 15 when none below 15 does. */
  lemma {:induction false} BclkDivIndexFromSpec(q: nat, i: nat)
    requires i <= 15
    decreases 15 - i
    ensures BclkDivIndexFrom(q, i) < 15 ==> BclkDivs[BclkDivIndexFrom(q, i)] >= q
    ensures forall j :: i <= j < BclkDivIndexFrom(q, i) ==> BclkDivs[j] < q
  {
    if i < 15 && BclkDivs[i] < q {
      BclkDivIndexFromSpec(q, i + 1);
    }
  }

  /**
   * The BCLKDIV code loop: the least code below 15 whose divider reaches `q`,
   * and 15 when none does.
   */
  function BclkDivIndex(q: nat): (r: nat)
    ensures r < |BclkDivs|
    ensures r < 15 ==> BclkDivs[r] >= q
    ensures forall j :: 0 <= j < r ==> BclkDivs[j] < q
  {
    BclkDivIndexFromSpec(q, 0);
    BclkDivIndexFrom(q, 0)
  }

  /**
   * The chosen divider reaches `q` exactly when some table divider does
   * (q <= 192), and then it is the least such divider.
   */
  lemma {:induction false} BclkDivChoice(q: nat)
    ensures BclkDivs[BclkDivIndex(q)] >= q <==> q <= 192
    ensures forall j :: 0 <= j < |BclkDivs| && BclkDivs[j] >= q ==>
      BclkDivIndex(q) <= j && BclkDivs[BclkDivIndex(q)] <= BclkDivs[j]
  {
    BclkDivTableShape();
    BclkDivIndexFromSpec(q, 0);
    var i := BclkDivIndex(q);
    if i == 15 {
      assert BclkDivs[14] < q;
    }
  }
}
