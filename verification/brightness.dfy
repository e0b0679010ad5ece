/** Brightness arithmetic. The driver stores brightness biased by one, wrapped to 8
    bits: stored 0 means "no scaling", stored 1 means "off", and any other stored
    value s scales a channel v to `(v * s) >> 8`. */
module Brightness {
  import opened IntTypes

  /** Channel value that `setPixelColor` stores for input `v` at stored brightness `s`. */
  function ScaleChannel(v: uint8, s: uint8): (r: uint8)
    ensures s == 0 ==> r == v
    ensures s != 0 ==> r <= s - 1
    ensures s != 0 && v > 0 ==> r < v
  {
    if s == 0 then v
    else
      ScaledBelowBoth(v, s);
      (v * s) / 0x100
  }

  lemma ScaledBelowBoth(v: uint8, s: uint8)
    requires s != 0
    ensures (v * s) / 0x100 <= s - 1
    ensures v > 0 ==> (v * s) / 0x100 < v
  {
    MulMonotone(v, 0xFF, s);
    DivMonotone(v * s, s * 0x100 - 1, 0x100);
    DivModUnique(s * 0x100 - 1, 0x100, s - 1, 0xFF);
    if v > 0 {
      MulMonotone(s, 0xFF, v);
      DivMonotone(v * s, v * 0x100 - 1, 0x100);
      DivModUnique(v * 0x100 - 1, 0x100, v - 1, 0xFF);
    }
  }

  /** On the AVR the product `v * s` is a 16-bit signed `int` and may exceed its
      range. C++ leaves that overflow undefined; assuming the compiler wraps it in
      two's complement and shifts right arithmetically, as avr-gcc does, the byte
      finally stored is the same as with exact arithmetic. */
  lemma ScaleChannelOnAvr(v: uint8, s: uint8)
    requires s != 0
    ensures ToU8(AsInt16(ToU16(v * s)) / 0x100) == ScaleChannel(v, s)
  {
    HighByteOfInt16Word(v * s);
  }

  /** Largest byte value `setPixelColor` can store at stored brightness `s`; it is
      reached by a full-scale channel. It equals the "de-wrapped" old brightness,
      `(uint8_t)(brightness - 1)`, that `setBrightness` divides by. */
  function Ceiling(s: uint8): (top: uint8)
    ensures top == ToU8(s - 1)
    ensures forall v: uint8 :: ScaleChannel(v, s) <= top
    ensures ScaleChannel(0xFF, s) == top
  {
    if s == 0 then 0xFF
    else
      DivModUnique(0xFF * s, 0x100, s - 1, 0x100 - s);
      s - 1
  }

  /** Factor by which `setBrightness(b)` rescales every stored byte when the stored
      brightness changes from `stored` to `(b + 1) mod 256`. The factor is zero
      exactly when the strip was off, where the driver avoids dividing by zero. */
  function RescaleFactor(stored: uint8, b: uint8): (scale: uint16)
    ensures scale == 0 <==> stored == 1
  {
    var oldB := ToU8(stored - 1);
    var newB := ToU8(b + 1);
    if oldB == 0 then 0
    else if b == 0xFF then 0xFFFF / oldB
    else
      assert 1 <= newB;
      (newB * 0x100 - 1) / oldB
  }

  /** Byte stored by the rescale pass for old byte `c`, computed with exact
      arithmetic and truncated by the store into a `uint8_t`. On the AVR the
      product `c * scale` is a 16-bit unsigned word and wraps; the byte stored is
      the same. When the product fits in 16 bits the store does not truncate. */
  function RescaleByte(c: uint8, scale: uint16): (r: uint8)
    ensures r == ToU16(c * scale) / 0x100
    ensures c * scale < 0x1_0000 ==> r == (c * scale) / 0x100
  {
    HighByteOf16BitWord(c * scale);
    ToU8((c * scale) / 0x100)
  }

  /** `c * (x / d)` never exceeds `x` when `c <= d`. */
  lemma ProductOfQuotientBelow(c: nat, d: nat, x: nat)
    requires 0 < d && c <= d
    ensures c * (x / d) <= d * (x / d) <= x
  {
    assert d * (x / d) - c * (x / d) == (d - c) * (x / d);
    assert x == d * (x / d) + x % d;
  }

  /** `d * (x / d)` falls short of `x` by less than `d`. */
  lemma ProductOfQuotientAbove(d: nat, x: nat)
    requires 0 < d
    ensures d * (x / d) > x - d
  {
    assert x == d * (x / d) + x % d;
  }

  lemma {:induction false} MulMonotone(a: int, b: int, k: nat)
    requires a <= b
    ensures a * k <= b * k
  {
    if k > 0 {
      MulMonotone(a, b, k - 1);
      assert a * k == a * (k - 1) + a;
      assert b * k == b * (k - 1) + b;
    }
  }

  lemma DivMonotone(a: int, b: int, d: int)
    requires 0 <= a <= b && 0 < d
    ensures a / d <= b / d
  {
    if a / d > b / d {
      assert a == (a / d) * d + a % d;
      assert b == (b / d) * d + b % d;
      assert (a / d) * d - (b / d) * d == (a / d - b / d) * d;
      AtLeastOnce(a / d - b / d, d);
    }
  }

  /** Under the ceiling invariant the rescale product fits in 16 bits, so neither
      the AVR's 16-bit product nor the `uint8_t` store truncates it, and the
      rescaled byte stays under the new brightness's ceiling. */
  lemma RescaleWithinCeiling(stored: uint8, b: uint8, c: uint8)
    requires c <= Ceiling(stored)
    ensures c * RescaleFactor(stored, b) < 0x1_0000
    ensures RescaleByte(c, RescaleFactor(stored, b)) == (c * RescaleFactor(stored, b)) / 0x100
    ensures RescaleByte(c, RescaleFactor(stored, b)) <= Ceiling(ToU8(b + 1))
  {
    var oldB := Ceiling(stored);
    var scale := RescaleFactor(stored, b);
    if oldB == 0 {
      assert scale == 0;
    } else if b == 0xFF {
      ProductOfQuotientBelow(c, oldB, 0xFFFF);
    } else {
      var x := (b + 1) * 0x100 - 1;
      ProductOfQuotientBelow(c, oldB, x);
      DivMonotone(c * scale, x, 0x100);
      DivModUnique(x, 0x100, b, 0xFF);
    }
    DivMonotone(c * scale, 0xFFFF, 0x100);
  }

  /** The rescale maps the old ceiling exactly onto the new one: the brightest
      byte the old level could hold becomes the brightest the new level can hold. */
  lemma RescaleMapsCeilingToCeiling(stored: uint8, b: uint8)
    requires stored != 1
    ensures RescaleByte(Ceiling(stored), RescaleFactor(stored, b)) == Ceiling(ToU8(b + 1))
  {
    var oldB := Ceiling(stored);
    var scale := RescaleFactor(stored, b);
    RescaleWithinCeiling(stored, b, oldB);
    var x := if b == 0xFF then 0xFFFF else (b + 1) * 0x100 - 1;
    ProductOfQuotientAbove(oldB, x);
    var floor := if b == 0xFF then 0xFF else b;
    assert oldB * scale >= floor * 0x100;
    DivMonotone(floor * 0x100, oldB * scale, 0x100);
    DivModUnique(floor * 0x100, 0x100, floor, 0);
  }

  /** As long as the product does not wrap, rescaling keeps the relative order of
      bytes; under the ceiling invariant it never wraps. */
  lemma RescaleMonotone(c1: uint8, c2: uint8, scale: uint16)
    requires c1 <= c2 && c2 * scale < 0x1_0000
    ensures RescaleByte(c1, scale) <= RescaleByte(c2, scale)
  {
    MulMonotone(c1, c2, scale);
    DivMonotone(c1 * scale, c2 * scale, 0x100);
    DivMonotone(c2 * scale, 0xFFFF, 0x100);
  }

  /** Outside the ceiling the rescale product wraps and the order of bytes is lost:
      from stored brightness 11, `setBrightness(255)` picks factor 6553, which maps
      byte 255 to 127 but byte 10 to 255. */
  lemma RescaleOutsideCeilingWraps()
    ensures RescaleFactor(11, 0xFF) == 6553
    ensures 0xFF > Ceiling(11)
    ensures RescaleByte(0xFF, 6553) == 127 && RescaleByte(10, 6553) == 0xFF
  {
  }
}
