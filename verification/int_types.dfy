/** Fixed-width unsigned integers of the driver's target (an 8-bit AVR, whose C `int`
    is 16 bits wide), written as subset types of `int`, together with the
    truncating conversions the C code performs implicitly. */
module IntTypes {

  type uint8 = x: int | 0 <= x < 0x100
  type uint16 = x: int | 0 <= x < 0x1_0000
  type uint32 = x: int | 0 <= x < 0x1_0000_0000

  /** Conversion to `uint8_t`: keep the low 8 bits (two's complement for negatives). */
  function ToU8(x: int): (r: uint8)
    ensures 0 <= x < 0x100 ==> r == x
  {
    x % 0x100
  }

  /** Conversion to a 16-bit unsigned word: keep the low 16 bits. */
  function ToU16(x: int): (r: uint16)
    ensures 0 <= x < 0x1_0000 ==> r == x
  {
    x % 0x1_0000
  }

  /** A 16-bit pattern read as the AVR's two's-complement `int`. */
  function AsInt16(x: uint16): (r: int)
    ensures -0x8000 <= r < 0x8000
    ensures ToU16(r) == x
  {
    if x < 0x8000 then x else x - 0x1_0000
  }

  /** Quotient and remainder are determined by the defining equation. */
  lemma DivModUnique(x: int, d: int, q: int, m: int)
    requires 0 < d && 0 <= m < d && x == q * d + m
    ensures x / d == q && x % d == m
  {
    var q', m' := x / d, x % d;
    if q' != q {
      var k := if q' > q then q' - q else q - q';
      assert k * d == (if q' > q then m - m' else m' - m);
      AtLeastOnce(k, d);
    }
  }

  lemma AtLeastOnce(k: int, d: int)
    requires 1 <= k && 0 < d
    ensures k * d >= d
  {
    assert k * d == (k - 1) * d + d;
  }

  /** Taking the product in 16-bit unsigned arithmetic and then its high byte gives
      the same byte as taking the high byte of the exact product and truncating it
      to 8 bits: `(x mod 2^16) >> 8 == (x >> 8) mod 2^8`. */
  lemma HighByteOf16BitWord(x: nat)
    ensures ToU16(x) / 0x100 == ToU8(x / 0x100)
  {
    var q, m := x / 0x1_0000, x % 0x1_0000;
    var hi, lo := m / 0x100, m % 0x100;
    assert m == hi * 0x100 + lo;
    assert x == (q * 0x100 + hi) * 0x100 + lo;
    DivModUnique(x, 0x100, q * 0x100 + hi, lo);
    DivModUnique(x / 0x100, 0x100, q, hi);
  }

  /** The same holds when the 16-bit word is a signed AVR `int` that overflowed into
      the negative range and is shifted right arithmetically (rounding down). */
  lemma HighByteOfInt16Word(x: nat)
    ensures ToU8(AsInt16(ToU16(x)) / 0x100) == ToU8(x / 0x100)
  {
    HighByteOf16BitWord(x);
    var m := ToU16(x);
    var hi: int, lo: int := m / 0x100, m % 0x100;
    assert m == hi * 0x100 + lo;
    if m >= 0x8000 {
      assert AsInt16(m) == (hi - 0x100) * 0x100 + lo;
      DivModUnique(AsInt16(m), 0x100, hi - 0x100, lo);
      DivModUnique(hi - 0x100, 0x100, -1, hi);
    }
  }
}
