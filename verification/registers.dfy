/**
 * Byte-wide device registers and the bitfield arithmetic the driver performs
 * on them: the read-modify-write of ac10x_update_bits and the `value << POS`
 * field placement used in every mask and value the driver builds.
 */
module Registers {

  /**
   * ac10x_update_bits(reg, mask, val) as it acts on the register's value:
   * the bits under `mask` take `val`'s bits, every other bit keeps its value.
   */
  function UpdateBits(cur: bv8, mask: bv8, val: bv8): (r: bv8)
    ensures r & mask == val & mask
    ensures r & !mask == cur & !mask
  {
    (cur & !mask) | (val & mask)
  }

  /** The two bitwise conditions of UpdateBits determine its result. */
  lemma UpdateBitsUnique(cur: bv8, mask: bv8, val: bv8, r: bv8)
    requires r & mask == val & mask
    requires r & !mask == cur & !mask
    ensures r == UpdateBits(cur, mask, val)
  {
  }

  /** Updating under the full mask is a plain write. */
  lemma UpdateBitsFullMask(cur: bv8, val: bv8)
    ensures UpdateBits(cur, 0xFF, val) == val
  {
  }

  /**
   * A bit position inside a byte, as the shift counts of the driver's
   * `val << POS` expressions are.
   */
  type BitIndex = x: bv8 | x < 8

  /** The width of a field, one to eight bits. */
  type Span = w: bv8 | 1 <= w <= 8 witness 1

  /** Field geometry: a field of `width` bits starting at bit `pos` lies inside the byte. */
  predicate InByte(pos: bv8, width: bv8) {
    width <= 8 && pos <= 8 - width
  }

  /** A byte with the low `width` bits set. */
  function Ones(width: Span): (r: bv8) {
    ((1 as bv8) << width) - 1
  }

  /** The bits a field of `width` bits at bit position `pos` occupies. */
  function FieldMask(pos: BitIndex, width: Span): bv8 {
    Ones(width) << pos
  }

  /** The value of the field of `width` bits at bit position `pos`. */
  function FieldAt(v: bv8, pos: BitIndex, width: Span): (r: bv8)
    ensures r <= Ones(width)
  {
    (v >> pos) & Ones(width)
  }

  /**
   * One `val << POS` term of a mask/value pair the driver passes to an update:
   * the field is `width` bits wide (the mask term is `Ones(width) << POS`).
   */
  datatype Place = Place(pos: BitIndex, width: Span, val: bv8)

  predicate Fits(f: Place) {
    InByte(f.pos, f.width)
  }

  /** Every field lies inside the byte. */
  predicate AllFit(fs: seq<Place>) {
    forall k :: 0 <= k < |fs| ==> Fits(fs[k])
  }

  /** The mask the driver builds: the OR of every field's mask term. */
  function MaskOf(fs: seq<Place>): bv8 {
    if |fs| == 0 then 0 else FieldMask(fs[0].pos, fs[0].width) | MaskOf(fs[1..])
  }

  /** The value the driver builds: the OR of every `val << pos` term. */
  function ValueOf(fs: seq<Place>): bv8 {
    if |fs| == 0 then 0 else (fs[0].val << fs[0].pos) | ValueOf(fs[1..])
  }

  /**
   * A list of placements the driver can rely on: every field inside the byte,
   * every value inside its field, and no two fields sharing a bit.
   */
  predicate WellPlaced(fs: seq<Place>) {
    && AllFit(fs)
    && (forall k :: 0 <= k < |fs| ==> fs[k].val <= Ones(fs[k].width))
    && (forall j, k :: 0 <= j < k < |fs| ==>
          FieldMask(fs[j].pos, fs[j].width) & FieldMask(fs[k].pos, fs[k].width) == 0)
  }

  /** The field at (pos, width) shares no bit with any placed field. */
  predicate ApartFrom(fs: seq<Place>, pos: BitIndex, width: Span) {
    forall k :: 0 <= k < |fs| ==> FieldMask(fs[k].pos, fs[k].width) & FieldMask(pos, width) == 0
  }

  lemma FieldOfOr(a: bv8, b: bv8, pos: BitIndex, width: Span)
    requires InByte(pos, width)
    ensures FieldAt(a | b, pos, width) == FieldAt(a, pos, width) | FieldAt(b, pos, width)
  {
  }

  lemma FieldOfPlaced(v: bv8, pos: BitIndex, width: Span)
    requires InByte(pos, width)
    requires v <= Ones(width)
    ensures FieldAt(v << pos, pos, width) == v
  {
  }

  lemma FieldOfApart(v: bv8, q: BitIndex, wq: Span, pos: BitIndex, width: Span)
    requires InByte(q, wq) && InByte(pos, width)
    requires v <= Ones(wq)
    requires FieldMask(q, wq) & FieldMask(pos, width) == 0
    ensures FieldAt(v << q, pos, width) == 0
  {
  }

  /** A field apart from every placement reads as zero in the built value. */
  lemma {:induction false} FieldOfValueApart(fs: seq<Place>, pos: BitIndex, width: Span)
    requires WellPlaced(fs)
    requires InByte(pos, width)
    requires ApartFrom(fs, pos, width)
    ensures FieldAt(ValueOf(fs), pos, width) == 0
    ensures MaskOf(fs) & FieldMask(pos, width) == 0
  {
    if |fs| > 0 {
      FieldOfValueApart(fs[1..], pos, width);
      FieldOfOr(fs[0].val << fs[0].pos, ValueOf(fs[1..]), pos, width);
      FieldOfApart(fs[0].val, fs[0].pos, fs[0].width, pos, width);
    }
  }

  /** The tail of a well-placed list is well placed and apart from its head. */
  lemma WellPlacedTail(fs: seq<Place>)
    requires WellPlaced(fs)
    requires |fs| > 0
    ensures WellPlaced(fs[1..])
    ensures Fits(fs[0]) && ApartFrom(fs[1..], fs[0].pos, fs[0].width)
  {
    var rest := fs[1..];
    forall j | 0 <= j < |rest|
      ensures FieldMask(rest[j].pos, rest[j].width) & FieldMask(fs[0].pos, fs[0].width) == 0
    {
      assert rest[j] == fs[j + 1];
      var a := FieldMask(fs[0].pos, fs[0].width);
      var b := FieldMask(fs[j + 1].pos, fs[j + 1].width);
      assert a & b == 0;
      assert b & a == 0;
    }
  }

  /** The first placed field reads back, in the built value, as the value placed there. */
  lemma FieldOfValueHead(fs: seq<Place>)
    requires WellPlaced(fs)
    requires |fs| > 0
    ensures FieldAt(ValueOf(fs), fs[0].pos, fs[0].width) == fs[0].val
  {
    var f, rest := fs[0], fs[1..];
    WellPlacedTail(fs);
    FieldOfOr(f.val << f.pos, ValueOf(rest), f.pos, f.width);
    FieldOfValueApart(rest, f.pos, f.width);
    FieldOfPlaced(f.val, f.pos, f.width);
  }

  /** A later field reads the same in the built value as in the value built from the tail. */
  lemma FieldOfValueStep(fs: seq<Place>, k: nat)
    requires WellPlaced(fs)
    requires 0 < k < |fs|
    ensures FieldAt(ValueOf(fs), fs[k].pos, fs[k].width) == FieldAt(ValueOf(fs[1..]), fs[k].pos, fs[k].width)
  {
    var f := fs[k];
    FieldOfOr(fs[0].val << fs[0].pos, ValueOf(fs[1..]), f.pos, f.width);
    FieldOfApart(fs[0].val, fs[0].pos, fs[0].width, f.pos, f.width);
  }

  /** Each placed field reads back, in the built value, as the value placed there. */
  lemma {:induction false} FieldOfValue(fs: seq<Place>, k: nat)
    requires WellPlaced(fs)
    requires k < |fs|
    ensures FieldAt(ValueOf(fs), fs[k].pos, fs[k].width) == fs[k].val
  {
    if k == 0 {
      FieldOfValueHead(fs);
    } else {
      WellPlacedTail(fs);
      assert fs[1..][k - 1] == fs[k];
      FieldOfValue(fs[1..], k - 1);
      FieldOfValueStep(fs, k);
    }
  }

  /** The built mask covers each placed field. */
  lemma {:induction false} MaskCovers(fs: seq<Place>, k: nat)
    requires AllFit(fs)
    requires k < |fs|
    ensures MaskOf(fs) & FieldMask(fs[k].pos, fs[k].width) == FieldMask(fs[k].pos, fs[k].width)
  {
    var rest := fs[1..];
    assert AllFit(rest);
    if k > 0 {
      assert rest[k - 1] == fs[k];
      MaskCovers(rest, k - 1);
    }
  }

  /** A field depends only on the bits under its own mask. */
  lemma FieldOfMasked(v: bv8, pos: BitIndex, width: Span)
    requires InByte(pos, width)
    ensures FieldAt(v, pos, width) == FieldAt(v & FieldMask(pos, width), pos, width)
  {
  }

  /** A field wholly under the mask takes the value's field. */
  lemma FieldOfUpdateInside(cur: bv8, mask: bv8, val: bv8, pos: BitIndex, width: Span)
    requires InByte(pos, width)
    requires mask & FieldMask(pos, width) == FieldMask(pos, width)
    ensures FieldAt(UpdateBits(cur, mask, val), pos, width) == FieldAt(val, pos, width)
  {
  }

  /** A field wholly outside the mask keeps its value. */
  lemma FieldOfUpdateOutside(cur: bv8, mask: bv8, val: bv8, pos: BitIndex, width: Span)
    requires InByte(pos, width)
    requires mask & FieldMask(pos, width) == 0
    ensures FieldAt(UpdateBits(cur, mask, val), pos, width) == FieldAt(cur, pos, width)
  {
    var m := FieldMask(pos, width);
    var r := UpdateBits(cur, mask, val);
    assert r & m == cur & m;
    FieldOfMasked(r, pos, width);
    FieldOfMasked(cur, pos, width);
  }

  /** A field apart from every bit that changed keeps its value. */
  lemma FieldOfKept(v: bv8, v': bv8, changed: bv8, pos: BitIndex, width: Span)
    requires InByte(pos, width)
    requires changed & FieldMask(pos, width) == 0
    requires v' & !changed == v & !changed
    ensures FieldAt(v', pos, width) == FieldAt(v, pos, width)
  {
    var m := FieldMask(pos, width);
    assert v' & m == v & m;
    FieldOfMasked(v', pos, width);
    FieldOfMasked(v, pos, width);
  }

  /** Changing only bits inside `inner`, itself inside `outer`, keeps every bit outside `outer`. */
  lemma KeptOutside(v: bv8, v1: bv8, v2: bv8, inner: bv8, outer: bv8)
    requires inner & !outer == 0
    requires v1 & !outer == v & !outer
    requires v2 & !inner == v1 & !inner
    ensures v2 & !outer == v & !outer
  {
  }

  /**
   * An update built from well-placed fields sets every one of them to its
   * value and leaves every field apart from them as it was.
   */
  lemma UpdatePlaced(cur: bv8, fs: seq<Place>)
    requires WellPlaced(fs)
    ensures forall k :: 0 <= k < |fs| ==>
      FieldAt(UpdateBits(cur, MaskOf(fs), ValueOf(fs)), fs[k].pos, fs[k].width) == fs[k].val
  {
    forall k | 0 <= k < |fs|
      ensures FieldAt(UpdateBits(cur, MaskOf(fs), ValueOf(fs)), fs[k].pos, fs[k].width) == fs[k].val
    {
      FieldOfValue(fs, k);
      MaskCovers(fs, k);
      FieldOfUpdateInside(cur, MaskOf(fs), ValueOf(fs), fs[k].pos, fs[k].width);
    }
  }

  lemma UpdateApart(cur: bv8, fs: seq<Place>, pos: BitIndex, width: Span)
    requires WellPlaced(fs)
    requires InByte(pos, width)
    requires ApartFrom(fs, pos, width)
    ensures FieldAt(UpdateBits(cur, MaskOf(fs), ValueOf(fs)), pos, width) == FieldAt(cur, pos, width)
  {
    FieldOfValueApart(fs, pos, width);
    FieldOfUpdateOutside(cur, MaskOf(fs), ValueOf(fs), pos, width);
  }
}
