# AC108 clock and format engine, modelled in Dafny

This project models the register-programming core of an AC108 multi-codec
I2S/TDM capture driver (`pcm5102a.c` with its state record in `ac10x.h`).
One to four AC108 chips share a bus. Device 0 is the master; it is the only
device that may drive the bit clock (BCLK) and frame clock (LRCK). The model
covers four parts of the driver:

- the static tables: sample rate to rate code, resolution to resolution
  code, the sixteen BCLK dividers, and the 58-entry PLL divider list;
- `pcm5102a_hw_params`:
  - it validates a stream request against the tables;
  - when the opposite direction already streams (the fast path), it rewrites
    only the LRCK period and checks the running bit clock;
  - otherwise (the full path) it releases the master's LRCK and programs the
    whole clock tree on every device in use;
- `pcm5102a_set_dai_fmt`: it decodes the clock role, serial format and
  clock polarities, and writes them to every device in use, with the BCLK
  output enabled on device 0 alone;
- `ac10x_fill_regcache`: a sweep that copies live register values into a
  regmap's cache, skipping registers whose read fails.

Modules, in dependency order:

| file | module | contents |
|---|---|---|
| options.dfy | Options | `Option` |
| arith.dfy | Arith | natural-number division facts |
| registers.dfy | Registers | `ac10x_update_bits` on a byte; `val << POS` field placement |
| layout.dfy | Ac108 | the registers and bitfields of ac108.h, with positions and codes left symbolic (`Layout`) |
| ac10x.dfy | Ac10x | `struct ac10x_priv`, the per-device register record, the update helpers, and the trace events |
| tables.dfy | Tables | rate, resolution and divider tables and their searches |
| pll.dfy | PllTable | `ac108_pll_div_list` and its well-formedness |
| hw_params.dfy | HwParams | `pcm5102a_hw_params`, fast and full paths |
| dai_fmt.dfy | DaiFmt | `pcm5102a_set_dai_fmt` |
| regcache.dfy | RegCache | `ac10x_fill_regcache` |

### State and assumptions

- **Registers.** Each device is a record of the eleven byte registers the
  core touches. A group holds four device slots and a `codec_cnt` of
  0 .. 4.
- **Symbolic constants.** ac108.h is not part of this model. Every bit
  position and field code it defines is a field of `Ac108.Layout`.
  `Layout.Valid` lists the only facts the code relies on:
  - fields of one register are disjoint;
  - `BCLK_IOEN` is the bit above `LRCK_IOEN`;
  - the three serial-mode codes are distinct 2-bit values;
  - each polarity pair is {0, 1}.
- **Register helpers.** Their bodies are not shown, so their meaning here is
  an assumption:
  - `ac10x_update_bits` is `(old & ~mask) | (val & mask)` on one device;
  - `ac108_multi_*` applies the same write to devices 0 .. `codec_cnt`-1;
  - every bus transaction these helpers make succeeds.
- **Opaque calls.** `ac108_config_pll` and `ac108_configure_power` are
  recorded as events in an `Outcome` trace. They are assumed to change no
  modelled register and no field of `ac10x_priv`; the frame conditions of
  the full path and of the format program rest on that.
- **Regmap library.** In `ac10x_fill_regcache`, `regmap_read` is a function
  `live` of the register that gives its value or a failure, and a
  `regmap_write` in cache-only mode always stores the value into the cache.
  `regcache_cache_bypass` and `regcache_cache_only` only set their flags.
- **Return values.** An entry point returns its new state, its trace and its
  status (0 or -EINVAL).

## Model

| member | source | states |
|---|---|---|
| Tables.SampleRateTableShape | pcm5102a.c:55-66 | ten rates in strictly ascending order; each rate's code is its index |
| Tables.SampleRateBounds | pcm5102a.c:55-66 | every table rate lies between 8000 and 96000 Hz |
| Tables.SampleResolutionTableShape | pcm5102a.c:69-77 | seven resolutions, 8 + 4·index bits, with code index + 1 |
| Tables.BclkDivTableShape | pcm5102a.c:79-84 | sixteen dividers, strictly ascending from 0 to 192 |
| Tables.ResolutionIndex | pcm5102a.c:191-210 | a format is rejected exactly when it is not S8/S16_LE/S20_3LE/S24_LE/S32_LE; otherwise the index chosen is the table entry whose resolution is the format's significant bit count |
| Tables.ResolutionCodesSkipped | pcm5102a.c:191-210 | resolution codes 2 (12 bits) and 6 (28 bits) are never selected |
| Tables.FindRate | pcm5102a.c:212-217 | the loop over ac108_sample_rate fails exactly when no entry has the rate; otherwise it returns an index holding the rate, and no earlier index holds it |
| Tables.FindRateFromSpec | pcm5102a.c:212-217 | the rate search from index i fails exactly when no entry from i on matches; otherwise it returns the first match |
| Tables.FindRateSupported | pcm5102a.c:212-220 | the rate lookup succeeds exactly on the ten supported rates |
| Tables.BclkDivIndex | pcm5102a.c:389-394 | the BCLKDIV loop returns a code 0 .. 15; a code below 15 has a divider reaching the quotient, and every lower code falls short (BclkDivChoice states when it reaches it and that it is least) |
| Tables.BclkDivIndexFromSpec | pcm5102a.c:390-394 | the divider search stops at the first divider below code 15 that reaches the quotient; every code it passes falls short |
| Tables.BclkDivChoice | pcm5102a.c:389-395 | the chosen divider reaches the quotient exactly when the quotient is at most 192; it is then the least table divider that does |
| PllTable.PllTableWellFormed | pcm5102a.c:86-151 | 58 entries; each has M1≤31, M2≤1, N≤1023, K1≤31, K2≤1; each output is one of the two canonical clocks; FIN·N/divisor is within 1% of FOUT |
| PllTable.PllKeysUnique | pcm5102a.c:87-151 | no two entries share an (input, output) frequency pair |
| PllTable.PllAccurateEntriesExact | pcm5102a.c:94-146 | the ten entries commented "accurate" satisfy FOUT·divisor = FIN·N exactly |
| PllTable.PllInexactEntries | pcm5102a.c:88-150 | FOUT·divisor = FIN·N holds for exactly 30 of the 58 entries; the 28 that miss it are indices 0, 3, 5, 9-15, 17-32, 41 and 50 |
| Registers.UpdateBits | ac10x.h:95 | bits under the mask take the new value's bits, and every other bit keeps the old value |
| Registers.UpdateBitsUnique | ac10x.h:95 | those two conditions determine the updated byte |
| Ac10x.UpdateFields | ac10x.h:92 | an update built from `val << POS` terms sets each listed field to its value (when the value fits), keeps every other field of the register, and keeps every bit outside the listed masks |
| Ac108.BclkIoenBit | pcm5102a.c:288 | testing `1 << BCLK_IOEN` tests whether the 2-bit IOEN field is 2 or more |
| Ac108.DriveBclkOnly | pcm5102a.c:438 | the update of `0x3 << LRCK_IOEN` to `1 << BCLK_IOEN` leaves IOEN at 2 (BCLK driven, LRCK not) and keeps every other bit |
| Ac108.StopLrck | pcm5102a.c:289 | clearing `1 << LRCK_IOEN` keeps BCLK_IOEN and every other bit |
| Ac10x.DriveBclk | pcm5102a.c:275 | the BCLK-only drive on one device changes nothing but the IOEN field of I2S_CTRL |
| Ac10x.DriveKeepsField | pcm5102a.c:438 | the BCLK-only drive keeps every other field of I2S_CTRL |
| Ac10x.DriveMaster | pcm5102a.c:438 | the drive touches device 0 alone, and only its I2S_CTRL |
| HwParams.Negotiate | pcm5102a.c:186-226 | the three checks in source order; a resolved request names indices inside both tables (NegotiateSpec states when each outcome happens) |
| HwParams.NegotiateSpec | pcm5102a.c:186-226 | for Negotiate, with the rate key RateKey = params_rate / (data_protocol + 1): each rejection (unsupported format, rate/(data_protocol+1) not in the table, 8 channels at 96 kHz) happens exactly on its condition; a resolved request names the entries of its bit count and its scaled rate |
| HwParams.ResolvedBounds | pcm5102a.c:191-226 | a resolved request has 8..32 bits (code 1..7) and a 8000..96000 Hz table rate (code ≤ 9) |
| HwParams.ResolvedBits | pcm5102a.c:191-210 | the resolution used is the format's significant bit count |
| HwParams.PcmPeriodBytes | pcm5102a.c:256-258 | `period & 0xFF` in LRCK_CTRL2 and `period >> 8` under mask 0x03 in LRCK_CTRL1 hold the period modulo 1024, and the rest of LRCK_CTRL1 is kept |
| HwParams.WritePcmPeriod | pcm5102a.c:256-258 | after the PCM-form write a device holds the period modulo 1024, and only the period bits change |
| HwParams.ClearedHighBits | pcm5102a.c:246-253 | outside PCM mode the high period bits are cleared, and with an encoding the period reads back as resolution − 1 |
| HwParams.WriteLrckPeriod | pcm5102a.c:245-259 | by mode: PCM gives res·ch − 1; non-PCM with an encoding gives res − 1 with the high bits 0; non-PCM without one only clears the high bits; only the period bits change |
| HwParams.WriteLrckPeriods | pcm5102a.c:351-366 | the period write on every device in use; devices out of use are untouched |
| HwParams.WritePcmPeriods | pcm5102a.c:269-271 | the PCM-form rewrite on every device in use; devices out of use are untouched |
| HwParams.FastRatioAsWritten | pcm5102a.c:265 | the chained integer division equals mclk/(divider·rate·ch·res), and is undefined exactly when a divisor is 0 |
| HwParams.RatioMatchesMeaning | pcm5102a.c:265-267 | the clock check passes exactly when the divider is non-zero and mclk lies in [P, 2P) for P = divider·rate·ch·res |
| HwParams.FastCheck | pcm5102a.c:245-281 | the period is written before the check; the check compares against the divider selected by the master's BCLK_CTRL; failure gives -EINVAL with that write in place; success rewrites the period in PCM form in every mode, drives BCLK on the master iff bit LRCK_IOEN of the BCLK_CTRL value is set, clears sysclk_en and touches nothing else |
| HwParams.FastPath | pcm5102a.c:186-282 | a rejected request returns -EINVAL with no write and no event; otherwise FastCheck's outcome for the resolved resolution; the PLL is never configured |
| HwParams.FastCommit | pcm5102a.c:268-277 | after a passed check, every device in use holds the PCM-form period with the bits above it kept, the master drives BCLK only when asked, and devices out of use keep their LRCK registers |
| HwParams.FastDrive | pcm5102a.c:274-276 | the master's BCLK update on top of the two period writes gives that same per-device result |
| HwParams.ReleaseLrck | pcm5102a.c:287-290 | if BCLK_IOEN is set the master stops driving LRCK (IOEN 3 becomes 2), and every other bit is kept |
| HwParams.ReleaseMaster | pcm5102a.c:287-290 | the release touches only the master's I2S_CTRL |
| HwParams.DividerCode | pcm5102a.c:389-395 | the code for bclkdiv = mclk/(rate·ch·res): below 15 its divider reaches bclkdiv, and every lower code's divider falls short |
| HwParams.DividerCodeChoice | pcm5102a.c:389-395 | for DividerCode: the BCLKDIV code is the least code whose divider reaches mclk/(rate·ch·res), reaching it iff the quotient is ≤ 192; every lower code falls short |
| HwParams.CodesFor | pcm5102a.c:373-395 | a resolved request programs the resolution of the format's significant bit count with code (bits − 4)/4 = its table code (≤ 7), the scaled request rate with its table index as code (≤ 9), and the divider code DividerCode chooses for the group's mclk (≤ 15) |
| HwParams.WriteResolution | pcm5102a.c:373-375 | the resolution code lands in both SAMPLE_RESOLUTION and SLOT_WIDTH_SEL, and every other bit of FMT_CTRL2 is kept |
| HwParams.WriteAdcRate | pcm5102a.c:381 | the rate code lands in ADC_FS_I2S1, and every other bit is kept |
| HwParams.WriteBclkDiv | pcm5102a.c:395 | the divider code lands in BCLKDIV; BCLK polarity and every other bit are kept |
| HwParams.ClockFields | pcm5102a.c:373-400 | FMT_CTRL2, ADC_SPRC, HPF_EN=0x0F, BCLKDIV, MOD_CLK_EN and MOD_RST_CTRL take their values, and no other register changes |
| HwParams.ClockDevice | pcm5102a.c:351-400 | one device gets the period and clock fields; I2S_CTRL, FMT_CTRL1 and FMT_CTRL3 are kept |
| HwParams.ClockDevices | pcm5102a.c:351-400 | every device in use is programmed; devices out of use are untouched |
| HwParams.FullProgram | pcm5102a.c:351-400 | the program stated against the group as it was before the LRCK release |
| HwParams.FullCommit | pcm5102a.c:351-406 | after validation, every device in use is programmed with the codes of CodesFor and ModuleBits (the I2S, ADC digital, MIC offset calibration and ADC analog enable bits of line 398 as one byte) in MOD_CLK_EN and MOD_RST_CTRL, the PLL is configured once with (table rate, res·ch), and 0 is returned |
| HwParams.FullPath | pcm5102a.c:283-407 | the master's LRCK is released first; returns 0 exactly when validation passes; failure leaves only the release and configures nothing; success programs every device in use (ModuleBits in both module registers) and configures the PLL once with (table rate, res·ch); the other devices' I2S_CTRL and all devices out of use are kept |
| HwParams.Configure | pcm5102a.c:164-407 | on either path a request validation refuses returns -EINVAL with no event. With the opposite direction active: success exactly when validation passes and the running divider matches; a mismatch leaves the period write in place; success gives the PCM-form period, the master's conditional BCLK drive and sysclk_en cleared; BCLK_CTRL, FMT_CTRL2, ADC_SPRC, HPF_EN, MOD_CLK_EN and MOD_RST_CTRL are never written and the PLL is never configured. Otherwise: the master's LRCK is released, success exactly when validation passes, a rejection changes nothing else, and success programs every device in use with CodesFor's codes and configures the PLL once with (table rate, res·ch) |
| HwParams.ZeroDividerReachable | pcm5102a.c:263-265 | the divider search picks code 0 for 11.2896 MHz at 48 kHz with 8 channels of 32 bits, and the check as written divides by zero on divider 0 |
| HwParams.ZeroCodeChosen | pcm5102a.c:384-395 | that request passes validation and the full path's codes carry BCLKDIV code 0 |
| HwParams.BclkDivZeroAtBitZero | pcm5102a.c:263-264 | a BCLK_CTRL value whose four bits from bit 0 (where ac108.h puts BCLKDIV) are 0 selects divider 0 |
| HwParams.ZeroDividerAfterFullPath | pcm5102a.c:263-265 | with BCLKDIV at bit 0, whatever BCLK_CTRL the full path leaves on the master for that request selects divider 0, so the fast path's check as written divides by zero |
| DaiFmt.FramingOf | pcm5102a.c:456-485 | I2S→(LJ,1), RIGHT_J→(RJ,0), LEFT_J→(LJ,0), DSP_A→(PCM,1), DSP_B→(PCM,0), anything else rejected; read backwards, offset 1 means I2S or DSP_A and PCM mode means DSP_A or DSP_B |
| DaiFmt.FramingIdentifies | pcm5102a.c:456-485 | no two formats share a (mode, offset) pair |
| DaiFmt.PolarityOf | pcm5102a.c:488-512 | BCLK is inverted iff IB_*, LRCK is inverted iff *_IF, anything else is rejected |
| DaiFmt.PolarityIdentifies | pcm5102a.c:488-512 | the four inversions give four different polarity pairs |
| DaiFmt.WriteRole | pcm5102a.c:435-436 | IOEN 0, SDO1_EN 3, and TXEN and GEN set exactly for a master; every other bit kept |
| DaiFmt.DriveAfterRole | pcm5102a.c:435-438 | driving BCLK after the role update keeps the role fields, so the master ends with IOEN 2 |
| DaiFmt.WriteRoles | pcm5102a.c:447-448 | the role update on every device in use changes only I2S_CTRL |
| DaiFmt.OneClockSource | pcm5102a.c:429-449 | in master mode device 0 alone drives a clock among the devices in use; in slave mode none does |
| DaiFmt.ApplyRole | pcm5102a.c:429-449 | the role written to each device in use and BCLK driven by device 0 in master mode; nothing but I2S_CTRL changes |
| DaiFmt.WriteBclkPolarity | pcm5102a.c:520 | the code lands in BCLK_POLARITY, and every other bit is kept |
| DaiFmt.WriteLrckPolarity | pcm5102a.c:524 | the code lands in LRCK_POLARITY; every other bit, the period bits among them, is kept |
| DaiFmt.WriteFormat1 | pcm5102a.c:531-538 | ENCD_SEL = data_protocol, the framing's mode, equal TX1/TX2 offsets, TX_SLOT_HIZ 0, TX_STATE 1, and other bits kept |
| DaiFmt.WriteFormat3 | pcm5102a.c:549-550 | MSB first, SEXT 3, a one-BCLK LRCK and linear PCM; other bits kept |
| DaiFmt.FormatDevice | pcm5102a.c:520-552 | both polarities, FMT_CTRL1, FMT_CTRL3 and HPF_EN=0 on one device; I2S_CTRL and the clock registers are kept |
| DaiFmt.FormatDevices | pcm5102a.c:520-552 | every device in use is formatted; devices out of use and every I2S_CTRL are kept |
| DaiFmt.FormatGroup | pcm5102a.c:455-552 | a bad format returns -EINVAL with the role in place; a bad inversion returns -EINVAL with the role and the new i2s_mode in place; success configures power once and formats every device in use |
| DaiFmt.SetDaiFmt | pcm5102a.c:418-555 | with both directions streaming, returns 0 and writes nothing; otherwise 0 exactly for a recognised word; a bad role writes nothing; every failure changes no register but I2S_CTRL; only the registers and i2s_mode change |
| RegCache.Sweep | pcm5102a.c:679-693 | the cache holds each successfully read register's value, reads bypass the cache, writes go to the cache alone, and both flags end off |
| RegCache.SyncedAt | pcm5102a.c:679-691 | for Synced, the reference cache after visiting registers 0 .. count−1: a visited register whose read succeeds holds the value read; every other entry, present or absent, is as before |
| RegCache.SyncIdempotent | pcm5102a.c:679-691 | a second sweep over an unchanged device leaves the cache as the first left it |
| RegCache.FillRegcacheAsWritten | pcm5102a.c:674-696 | returns 0 and clears both flags; reads only registers below n; syncs registers 0 .. n−1, a failed read skipping only its own register |
| RegCache.MaxRegisterSkipped | pcm5102a.c:678-679 | the register `regmap_get_max_register` names is never synced, whatever the hardware holds |
| RegCache.FillRegcache | pcm5102a.c:674-696 | with the loop running to the max register inclusive, every register 0 .. n whose read succeeds is synced and every other entry is kept |

## Examples

Single instances, kept as illustrations of the properties above rather than
as properties of their own:

| member | source | states |
|---|---|---|
| Ac10x.CanonicalClocks | ac10x.h:58-59 | the two internal clocks are 512·48000 and 512·44100 Hz |
| HwParams.WorkedExample | pcm5102a.c:384-395 | 48 kHz, S16_LE, 2 channels at 24.576 MHz gives resolution code 3, rate code 8 and BCLKDIV code 7 (divider 16) |
| RegCache.OnlyRegisterSkipped | pcm5102a.c:678-679 | a device whose only register is 0 keeps an empty cache |

## Left out

- Kernel lifecycle glue (probe, remove, shutdown, suspend, resume, bias level, startup, trigger; pcm5102a.c:557-668 and 698-728): it is not part of the clock and format engine.
- The tail of `pcm5102a_hw_params` (pcm5102a.c:409-415): both branches return before it, so it is unreachable.
- The `fallthrough` after `break` at pcm5102a.c:440: it is unreachable.
- The regmap library behind `ac10x_fill_regcache` (`regmap_read`, `regmap_write`, `regcache_cache_bypass`, `regcache_cache_only`): its code is not part of this model. A cache-only `regmap_write` is taken always to store its value. The code discards that write's result `r` (pcm5102a.c:689), so a write the regmap refuses, or a volatile register it does not cache, would leave the entry unsynced. RegCache.Sweep, RegCache.FillRegcacheAsWritten and RegCache.FillRegcache state "every register whose read succeeds is synced" only under this assumption.
- The bodies of `ac108_multi_write`, `ac108_multi_update_bits`, `ac10x_read`, `ac10x_write` and `ac10x_update_bits`: they are not part of this model, and their meaning is assumed as stated above. Bus failures are not modelled, so `ret` at pcm5102a.c:275 is always 0 and sysclk_en is always cleared.
- `ac108_config_pll` and its PLL table lookup, and `ac108_configure_power`: they are recorded as events only. The PLL table itself is modelled and proved well formed.
- ac108.h (register addresses, bit positions, polarity and mode codes): it is not part of this model, so these values are symbolic and constrained only by `Layout.Valid`.
- The numeric values of `SND_SOC_DAIFMT_*`: the format word arrives already split into its role, format and inversion fields.
- The ALSA `params_*` accessors: they are abstracted as a `Request` record. `ValidRequest` bounds the channel count so that no 32-bit product overflows.
- Registers the core never touches: they are not represented; each device is a record of the eleven registers it writes.
- The spinlock, the global `static_ac10x`, the deferred work item, and all logging (`dev_dbg`, `pr_err`, `PCM5102A_DBG`): none of them affects the modelled state.
- DaiFmt.WriteFormat1: the field values are stated only when data_protocol is 0 or 1. For larger values, `data_protocol << ENCD_SEL` spills into neighbouring fields, whose positions are symbolic. For every data_protocol, every bit outside the six masks is kept.
- HwParams.FullPath: MOD_CLK_EN and MOD_RST_CTRL are stated to hold `1 << I2S | 1 << ADC_DIGITAL | 1 << MIC_OFFSET_CALIBRATION | 1 << ADC_ANALOG` as one byte. That each of the four module bits reads back as 1 is not stated.
- HwParams.FastCheck: the fast path's clock check rejects a zero divider with -EINVAL, where the code divides by zero (see Findings).

## Notes on the code

Behaviour of the code that a reader might not expect, modelled as written:

- **Register cache sync result.** `ac10x_fill_regcache` returns 0 even when reads fail; a failed read only skips its own register (pcm5102a.c:683-695).
- **Fast-path ratio mismatch.** The LRCK period has already been rewritten on every device in use when the check fails, and the -EINVAL return leaves that write in place (pcm5102a.c:245-267).
- **Encoded-protocol period.** A non-zero data_protocol sets the period to resolution − 1 only outside PCM mode; in PCM mode the period is resolution·channels − 1 whatever the encoding (pcm5102a.c:245-259).
- **PLL relation.** FOUT·divisor = FIN·N holds exactly for 30 of the 58 entries of `ac108_pll_div_list` (pcm5102a.c:88-150). The 28 others are ten common clocks to 24.576 MHz, sixteen common clocks to 22.5792 MHz, and the /176 entry of each of the first two fraction groups (indices 41 and 50); every entry of the third fraction group (pcm5102a.c:145-150) is exact, and every entry is within 1% (PllTable.PllInexactEntries, PllTable.PllTableWellFormed).
- **Divider choice.** A divider at least as large as bclkdiv exists only when bclkdiv is at most 192; otherwise code 15 (divider 192) is chosen and falls short (pcm5102a.c:389-395).

## Findings

| source | as written | input that shows it | evidently intended | confidence | as-written member | corrected member |
|---|---|---|---|---|---|---|
| pcm5102a.c:263-265 | the fast path divides mclk by `ac108_bclkdivs[reg & 0x0f]`, whose entry 0 is 0 | the full path with mclk 11289600 at 48 kHz, 8 channels, S32_LE chooses BCLKDIV code 0; a later opposite-direction request reads code 0 and divides by zero | a zero divider fails the check with -EINVAL | high; not executed | HwParams.ZeroDividerAfterFullPath | HwParams.RatioMatchesMeaning |
| pcm5102a.c:678-679 | the sweep runs `i < n` with n = `regmap_get_max_register(map)`, the highest valid register | a regmap whose max register is 0 and reads 5 keeps an empty cache | `i <= n`, so the max register is synced too | high; not executed | RegCache.MaxRegisterSkipped | RegCache.FillRegcache |
