/**
 * ac108_pll_div_list: the PLL divider sets, keyed by (input, output)
 * frequency, with FOUT = FIN * N / ((M1+1) * (M2+1) * (K1+1) * (K2+1)) and
 * M1 in [0,31], M2 in [0,1], N in [0,1023], K1 in [0,31], K2 in [0,1].
 * The table is written in the five groups of the source so that each group's
 * facts can be checked on its own.
 */
module PllTable {
  import opened Ac10x

  /** struct pll_div. */
  datatype PllDiv = PllDiv(freqIn: nat, freqOut: nat, m1: nat, m2: nat, n: nat, k1: nat, k2: nat)

  const F24: nat := Freq24576K
  const F22: nat := Freq22579K

  /** Common input clocks to 24.576 MHz. */
  const CommonTo24: seq<PllDiv> := [
    PllDiv(400000,   F24, 0,  0, 614, 4, 1),
    PllDiv(512000,   F24, 0,  0, 960, 9, 1),
    PllDiv(768000,   F24, 0,  0, 640, 9, 1),
    PllDiv(800000,   F24, 0,  0, 614, 9, 1),
    PllDiv(1024000,  F24, 0,  0, 480, 9, 1),
    PllDiv(1600000,  F24, 0,  0, 307, 9, 1),
    PllDiv(2048000,  F24, 0,  0, 240, 9, 1),
    PllDiv(3072000,  F24, 0,  0, 160, 9, 1),
    PllDiv(4096000,  F24, 2,  0, 360, 9, 1),
    PllDiv(6000000,  F24, 4,  0, 410, 9, 1),
    PllDiv(12000000, F24, 9,  0, 410, 9, 1),
    PllDiv(13000000, F24, 8,  0, 340, 9, 1),
    PllDiv(15360000, F24, 12, 0, 415, 9, 1),
    PllDiv(16000000, F24, 12, 0, 400, 9, 1),
    PllDiv(19200000, F24, 15, 0, 410, 9, 1),
    PllDiv(19680000, F24, 15, 0, 400, 9, 1),
    PllDiv(24000000, F24, 4,  0, 128, 24, 0)
  ]

  /** Common input clocks to 22.5792 MHz. */
  const CommonTo22: seq<PllDiv> := [
    PllDiv(400000,   F22, 0,  0, 566, 4, 1),
    PllDiv(512000,   F22, 0,  0, 880, 9, 1),
    PllDiv(768000,   F22, 0,  0, 587, 9, 1),
    PllDiv(800000,   F22, 0,  0, 567, 9, 1),
    PllDiv(1024000,  F22, 0,  0, 440, 9, 1),
    PllDiv(1600000,  F22, 1,  0, 567, 9, 1),
    PllDiv(2048000,  F22, 0,  0, 220, 9, 1),
    PllDiv(3072000,  F22, 0,  0, 148, 9, 1),
    PllDiv(4096000,  F22, 2,  0, 330, 9, 1),
    PllDiv(6000000,  F22, 2,  0, 227, 9, 1),
    PllDiv(12000000, F22, 8,  0, 340, 9, 1),
    PllDiv(13000000, F22, 9,  0, 350, 9, 1),
    PllDiv(15360000, F22, 10, 0, 325, 9, 1),
    PllDiv(16000000, F22, 11, 0, 340, 9, 1),
    PllDiv(19200000, F22, 13, 0, 330, 9, 1),
    PllDiv(19680000, F22, 14, 0, 345, 9, 1),
    PllDiv(24000000, F22, 24, 0, 588, 24, 0)
  ]

  /** Integer fractions of 24.576 MHz back to 24.576 MHz. */
  const FractionsTo24: seq<PllDiv> := [
    PllDiv(F24 / 1,   F24, 9, 0, 200, 9, 1),
    PllDiv(F24 / 2,   F24, 9, 0, 400, 9, 1),
    PllDiv(F24 / 4,   F24, 4, 0, 400, 9, 1),
    PllDiv(F24 / 16,  F24, 0, 0, 320, 9, 1),
    PllDiv(F24 / 64,  F24, 0, 0, 640, 4, 1),
    PllDiv(F24 / 96,  F24, 0, 0, 960, 4, 1),
    PllDiv(F24 / 128, F24, 0, 0, 512, 1, 1),
    PllDiv(F24 / 176, F24, 0, 0, 880, 4, 0),
    PllDiv(F24 / 192, F24, 0, 0, 960, 4, 0)
  ]

  /** Integer fractions of 22.5792 MHz back to 22.5792 MHz. */
  const FractionsTo22: seq<PllDiv> := [
    PllDiv(F22 / 1,   F22, 9, 0, 200, 9, 1),
    PllDiv(F22 / 2,   F22, 9, 0, 400, 9, 1),
    PllDiv(F22 / 4,   F22, 4, 0, 400, 9, 1),
    PllDiv(F22 / 16,  F22, 0, 0, 320, 9, 1),
    PllDiv(F22 / 64,  F22, 0, 0, 640, 4, 1),
    PllDiv(F22 / 96,  F22, 0, 0, 960, 4, 1),
    PllDiv(F22 / 128, F22, 0, 0, 512, 1, 1),
    PllDiv(F22 / 176, F22, 0, 0, 880, 4, 0),
    PllDiv(F22 / 192, F22, 0, 0, 960, 4, 0)
  ]

  /** Further integer fractions of 22.5792 MHz back to 22.5792 MHz. */
  const MoreFractionsTo22: seq<PllDiv> := [
    PllDiv(F22 / 6,  F22, 2, 0, 360, 9, 1),
    PllDiv(F22 / 8,  F22, 0, 0, 160, 9, 1),
    PllDiv(F22 / 12, F22, 0, 0, 240, 9, 1),
    PllDiv(F22 / 24, F22, 0, 0, 480, 9, 1),
    PllDiv(F22 / 32, F22, 0, 0, 640, 9, 1),
    PllDiv(F22 / 48, F22, 0, 0, 960, 9, 1)
  ]

  /** The whole table, in source order. */
  const PllDivList: seq<PllDiv> := CommonTo24 + CommonTo22 + FractionsTo24 + FractionsTo22 + MoreFractionsTo22

  /** (M1+1)(M2+1)(K1+1)(K2+1), the divisor of the FOUT relation. */
  function Divisor(e: PllDiv): nat {
    (e.m1 + 1) * (e.m2 + 1) * (e.k1 + 1) * (e.k2 + 1)
  }

  /** Every field within the range its register field allows. */
  predicate InRange(e: PllDiv) {
    e.m1 <= 31 && e.m2 <= 1 && e.n <= 1023 && e.k1 <= 31 && e.k2 <= 1
  }

  /** The output is one of the two canonical internal clocks. */
  predicate CanonicalOutput(e: PllDiv) {
    e.freqOut == Freq24576K || e.freqOut == Freq22579K
  }

  /** FIN * N / divisor is exactly FOUT. */
  predicate Exact(e: PllDiv) {
    e.freqIn * e.n == e.freqOut * Divisor(e)
  }

  /** FIN * N / divisor is within one percent of FOUT. */
  predicate WithinOnePercent(e: PllDiv) {
    99 * (e.freqOut * Divisor(e)) <= 100 * (e.freqIn * e.n) <= 101 * (e.freqOut * Divisor(e))
  }

  predicate WellFormed(e: PllDiv) {
    InRange(e) && CanonicalOutput(e) && WithinOnePercent(e)
  }

  predicate AllWellFormed(t: seq<PllDiv>) {
    forall i :: 0 <= i < |t| ==> WellFormed(t[i])
  }

  /** No two entries share an (input, output) pair. */
  predicate KeysDistinct(t: seq<PllDiv>) {
    forall i, j :: 0 <= i < j < |t| ==> (t[i].freqIn, t[i].freqOut) != (t[j].freqIn, t[j].freqOut)
  }

  /** No entry of `a` shares an (input, output) pair with an entry of `b`. */
  predicate KeysApart(a: seq<PllDiv>, b: seq<PllDiv>) {
    forall i, j :: 0 <= i < |a| && 0 <= j < |b| ==> (a[i].freqIn, a[i].freqOut) != (b[j].freqIn, b[j].freqOut)
  }

  /** Every entry of `t` produces `out`. */
  predicate AllOutput(t: seq<PllDiv>, out: nat) {
    forall i :: 0 <= i < |t| ==> t[i].freqOut == out
  }

  lemma CommonTo24Shape()
    ensures forall i :: 0 <= i < |CommonTo24| ==> InRange(CommonTo24[i]) && CommonTo24[i].freqOut == F24
  {
  }

  lemma CommonTo24Accurate()
    ensures forall i :: 0 <= i < |CommonTo24| ==> WithinOnePercent(CommonTo24[i])
  {
  }

  lemma CommonTo24WellFormed()
    ensures AllWellFormed(CommonTo24) && AllOutput(CommonTo24, F24)
  {
    CommonTo24Shape();
    CommonTo24Accurate();
  }

  lemma CommonTo24KeysDistinct()
    ensures KeysDistinct(CommonTo24)
  {
  }

  lemma CommonTo22Shape()
    ensures forall i :: 0 <= i < |CommonTo22| ==> InRange(CommonTo22[i]) && CommonTo22[i].freqOut == F22
  {
  }

  lemma CommonTo22Accurate()
    ensures forall i :: 0 <= i < |CommonTo22| ==> WithinOnePercent(CommonTo22[i])
  {
  }

  lemma CommonTo22WellFormed()
    ensures AllWellFormed(CommonTo22) && AllOutput(CommonTo22, F22)
  {
    CommonTo22Shape();
    CommonTo22Accurate();
  }

  lemma CommonTo22KeysDistinct()
    ensures KeysDistinct(CommonTo22)
  {
  }

  lemma FractionsTo24Shape()
    ensures forall i :: 0 <= i < |FractionsTo24| ==> InRange(FractionsTo24[i]) && FractionsTo24[i].freqOut == F24
  {
  }

  lemma FractionsTo24Accurate()
    ensures forall i :: 0 <= i < |FractionsTo24| ==> WithinOnePercent(FractionsTo24[i])
  {
  }

  lemma FractionsTo24WellFormed()
    ensures AllWellFormed(FractionsTo24) && AllOutput(FractionsTo24, F24)
  {
    FractionsTo24Shape();
    FractionsTo24Accurate();
  }

  lemma FractionsTo24KeysDistinct()
    ensures KeysDistinct(FractionsTo24)
  {
  }

  lemma FractionsTo22Shape()
    ensures forall i :: 0 <= i < |FractionsTo22| ==> InRange(FractionsTo22[i]) && FractionsTo22[i].freqOut == F22
  {
  }

  lemma FractionsTo22Accurate()
    ensures forall i :: 0 <= i < |FractionsTo22| ==> WithinOnePercent(FractionsTo22[i])
  {
  }

  lemma FractionsTo22WellFormed()
    ensures AllWellFormed(FractionsTo22) && AllOutput(FractionsTo22, F22)
  {
    FractionsTo22Shape();
    FractionsTo22Accurate();
  }

  lemma FractionsTo22KeysDistinct()
    ensures KeysDistinct(FractionsTo22)
  {
  }

  lemma MoreFractionsTo22Shape()
    ensures forall i :: 0 <= i < |MoreFractionsTo22| ==> InRange(MoreFractionsTo22[i]) && MoreFractionsTo22[i].freqOut == F22
  {
  }

  lemma MoreFractionsTo22Accurate()
    ensures forall i :: 0 <= i < |MoreFractionsTo22| ==> WithinOnePercent(MoreFractionsTo22[i])
  {
  }

  lemma MoreFractionsTo22WellFormed()
    ensures AllWellFormed(MoreFractionsTo22) && AllOutput(MoreFractionsTo22, F22)
  {
    MoreFractionsTo22Shape();
    MoreFractionsTo22Accurate();
  }

  lemma MoreFractionsTo22KeysDistinct()
    ensures KeysDistinct(MoreFractionsTo22)
  {
  }

  lemma CommonTo24ApartFractionsTo24()
    ensures KeysApart(CommonTo24, FractionsTo24)
  {
  }

  lemma CommonTo22ApartFractionsTo22()
    ensures KeysApart(CommonTo22, FractionsTo22)
  {
  }

  lemma CommonTo22ApartMoreFractionsTo22()
    ensures KeysApart(CommonTo22, MoreFractionsTo22)
  {
  }

  lemma FractionsTo22ApartMoreFractionsTo22()
    ensures KeysApart(FractionsTo22, MoreFractionsTo22)
  {
  }

  /** Which entries of each group reproduce FOUT exactly, by index in the group. */
  lemma CommonTo24Exact()
    ensures forall i :: 0 <= i < |CommonTo24| ==> (Exact(CommonTo24[i]) <==> i in {1, 2, 4, 6, 7, 8, 16})
  {
  }

  lemma CommonTo22Exact()
    ensures forall i :: 0 <= i < |CommonTo22| ==> (Exact(CommonTo22[i]) <==> i == 16)
  {
  }

  lemma FractionsTo24Exact()
    ensures forall i :: 0 <= i < |FractionsTo24| ==> (Exact(FractionsTo24[i]) <==> i != 7)
  {
  }

  lemma FractionsTo22Exact()
    ensures forall i :: 0 <= i < |FractionsTo22| ==> (Exact(FractionsTo22[i]) <==> i != 7)
  {
  }

  lemma MoreFractionsTo22Exact()
    ensures forall i :: 0 <= i < |MoreFractionsTo22| ==> Exact(MoreFractionsTo22[i])
  {
  }

  lemma WellFormedAppend(a: seq<PllDiv>, b: seq<PllDiv>)
    requires AllWellFormed(a) && AllWellFormed(b)
    ensures AllWellFormed(a + b)
  {
    forall i | 0 <= i < |a + b| ensures WellFormed((a + b)[i]) {
      if i >= |a| {
        assert (a + b)[i] == b[i - |a|];
      }
    }
  }

  /** Groups with different outputs share no key. */
  lemma OutputsApart(a: seq<PllDiv>, b: seq<PllDiv>, x: nat, y: nat)
    requires AllOutput(a, x) && AllOutput(b, y) && x != y
    ensures KeysApart(a, b)
  {
  }

  lemma KeysApartAppend(a: seq<PllDiv>, b: seq<PllDiv>, c: seq<PllDiv>)
    requires KeysApart(a, c) && KeysApart(b, c)
    ensures KeysApart(a + b, c)
  {
    forall i, j | 0 <= i < |a + b| && 0 <= j < |c|
      ensures ((a + b)[i].freqIn, (a + b)[i].freqOut) != (c[j].freqIn, c[j].freqOut)
    {
      if i >= |a| {
        assert (a + b)[i] == b[i - |a|];
      }
    }
  }

  lemma KeysDistinctAppend(a: seq<PllDiv>, b: seq<PllDiv>)
    requires KeysDistinct(a) && KeysDistinct(b) && KeysApart(a, b)
    ensures KeysDistinct(a + b)
  {
    var t := a + b;
    forall i, j | 0 <= i < j < |t|
      ensures (t[i].freqIn, t[i].freqOut) != (t[j].freqIn, t[j].freqOut)
    {
      if j < |a| {
      } else if i < |a| {
        assert t[j] == b[j - |a|];
      } else {
        assert t[i] == b[i - |a|] && t[j] == b[j - |a|];
      }
    }
  }

  /**
   * Every entry's fields lie in their documented ranges, its output is one of
   * the two canonical clocks, and FIN * N / divisor is within one percent of
   * that output.
   */
  lemma PllTableWellFormed()
    ensures |PllDivList| == 58
    ensures forall i :: 0 <= i < |PllDivList| ==>
      InRange(PllDivList[i]) && CanonicalOutput(PllDivList[i]) && WithinOnePercent(PllDivList[i])
  {
    CommonTo24WellFormed();
    CommonTo22WellFormed();
    FractionsTo24WellFormed();
    FractionsTo22WellFormed();
    MoreFractionsTo22WellFormed();
    WellFormedAppend(CommonTo24, CommonTo22);
    WellFormedAppend(CommonTo24 + CommonTo22, FractionsTo24);
    WellFormedAppend(CommonTo24 + CommonTo22 + FractionsTo24, FractionsTo22);
    WellFormedAppend(CommonTo24 + CommonTo22 + FractionsTo24 + FractionsTo22, MoreFractionsTo22);
    assert AllWellFormed(PllDivList);
  }

  /** No two entries share an (input, output) pair, so a lookup by that pair is unambiguous. */
  lemma PllKeysUnique()
    ensures KeysDistinct(PllDivList)
  {
    var a, b, c, d, e := CommonTo24, CommonTo22, FractionsTo24, FractionsTo22, MoreFractionsTo22;
    CommonTo24WellFormed();
    CommonTo22WellFormed();
    FractionsTo24WellFormed();
    FractionsTo22WellFormed();
    MoreFractionsTo22WellFormed();
    CommonTo24KeysDistinct();
    CommonTo22KeysDistinct();
    FractionsTo24KeysDistinct();
    FractionsTo22KeysDistinct();
    MoreFractionsTo22KeysDistinct();
    CommonTo24ApartFractionsTo24();
    CommonTo22ApartFractionsTo22();
    CommonTo22ApartMoreFractionsTo22();
    FractionsTo22ApartMoreFractionsTo22();
    OutputsApart(a, b, F24, F22);
    KeysDistinctAppend(a, b);
    OutputsApart(b, c, F22, F24);
    KeysApartAppend(a, b, c);
    KeysDistinctAppend(a + b, c);
    OutputsApart(a, d, F24, F22);
    OutputsApart(c, d, F24, F22);
    KeysApartAppend(a, b, d);
    KeysApartAppend(a + b, c, d);
    KeysDistinctAppend(a + b + c, d);
    OutputsApart(a, e, F24, F22);
    OutputsApart(c, e, F24, F22);
    KeysApartAppend(a, b, e);
    KeysApartAppend(a + b, c, e);
    KeysApartAppend(a + b + c, d, e);
    KeysDistinctAppend(a + b + c + d, e);
  }

  /**
   * The entries the table marks "accurate" (source lines 94-96, 104, 122,
   * 126-127, 136-137 and 146, at these indices) reproduce FOUT exactly.
   */
  lemma PllAccurateEntriesExact()
    ensures forall i :: i in {6, 7, 8, 16, 33, 35, 36, 44, 45, 53} ==> Exact(PllDivList[i])
  {
    CommonTo24Exact();
    CommonTo22Exact();
    FractionsTo24Exact();
    FractionsTo22Exact();
    MoreFractionsTo22Exact();
    var t := PllDivList;
    assert t[6] == CommonTo24[6] && t[7] == CommonTo24[7] && t[8] == CommonTo24[8] && t[16] == CommonTo24[16];
    assert t[33] == CommonTo22[16];
    assert t[35] == FractionsTo24[1] && t[36] == FractionsTo24[2];
    assert t[44] == FractionsTo22[1] && t[45] == FractionsTo22[2];
    assert t[53] == MoreFractionsTo22[1];
  }

  /**
   * The indices of the entries whose FIN * N / divisor misses FOUT: ten of
   * the common clocks to 24.576 MHz, the first sixteen common clocks to
   * 22.5792 MHz, and the /176 entries of the first two fraction groups;
   * the third fraction group is exact throughout.
   */
  predicate InexactIndex(i: nat) {
    || i in {0, 3, 5, 9, 10, 11, 12, 13, 14, 15}
    || 17 <= i <= 32
    || i == 41 || i == 50
  }

  /**
   * FOUT * divisor = FIN * N holds for exactly 30 of the 58 entries; the 28
   * others are only within one percent.
   */
  lemma PllInexactEntries()
    ensures forall i :: 0 <= i < |PllDivList| ==> (Exact(PllDivList[i]) <==> !InexactIndex(i))
  {
    CommonTo24Exact();
    CommonTo22Exact();
    FractionsTo24Exact();
    FractionsTo22Exact();
    MoreFractionsTo22Exact();
    var t := PllDivList;
    forall i | 0 <= i < |t| ensures Exact(t[i]) <==> !InexactIndex(i) {
      if i < 17 {
        assert t[i] == CommonTo24[i];
      } else if i < 34 {
        assert t[i] == CommonTo22[i - 17];
      } else if i < 43 {
        assert t[i] == FractionsTo24[i - 34];
      } else if i < 52 {
        assert t[i] == FractionsTo22[i - 43];
      } else {
        assert t[i] == MoreFractionsTo22[i - 52];
      }
    }
  }
}
