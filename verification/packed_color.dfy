/** The packed 32-bit colour word `0x00RRGGBB` used at the driver's interface. The
    packed form is always red/green/blue, whatever byte order the LEDs expect. */
module PackedColor {
  import opened IntTypes

  /** `Color(r, g, b)`: red in bits 23..16, green in 15..8, blue in 7..0. The three
      fields do not overlap, so the C code's bitwise or of the shifted channels is
      their sum. */
  function Color(r: uint8, g: uint8, b: uint8): (c: uint32)
    ensures c < 0x100_0000
  {
    r * 0x1_0000 + g * 0x100 + b
  }

  /** `(uint8_t)(c >> 16)`: bits 23..16 of a packed colour; higher bits play no part. */
  function Red(c: uint32): (r: uint8)
    ensures r == (c % 0x100_0000) / 0x1_0000
  {
    (c / 0x1_0000) % 0x100
  }

  /** `(uint8_t)(c >> 8)`: bits 15..8 of a packed colour; only the low 16 bits matter. */
  function Green(c: uint32): (g: uint8)
    ensures g == (c % 0x1_0000) / 0x100
  {
    (c / 0x100) % 0x100
  }

  /** `(uint8_t)c`: bits 7..0 of a packed colour, which agree with `c` modulo 256. */
  function Blue(c: uint32): (b: uint8)
    ensures (c - b) % 0x100 == 0
  {
    c % 0x100
  }

  /** Unpacking a packed colour gives back exactly the channels it was packed from. */
  lemma ColorRoundTrip(r: uint8, g: uint8, b: uint8)
    ensures Color(r, g, b) < 0x100_0000
    ensures Red(Color(r, g, b)) == r
    ensures Green(Color(r, g, b)) == g
    ensures Blue(Color(r, g, b)) == b
  {
    var c := Color(r, g, b);
    DivModUnique(c, 0x100, r * 0x100 + g, b);
    DivModUnique(c / 0x100, 0x100, r, g);
    DivModUnique(c, 0x1_0000, r, g * 0x100 + b);
  }

  /** Conversely, packing the three channels of a colour word rebuilds the word,
      except for bits 31..24, which no channel carries and which are dropped. */
  lemma ChannelsRoundTrip(c: uint32)
    ensures Color(Red(c), Green(c), Blue(c)) == c % 0x100_0000
  {
    var b: int, q1: int := c % 0x100, c / 0x100;
    var g: int, q3: int := q1 % 0x100, q1 / 0x100;
    assert c == q3 * 0x1_0000 + (g * 0x100 + b);
    DivModUnique(c, 0x1_0000, q3, g * 0x100 + b);
    var r: int, q4: int := q3 % 0x100, q3 / 0x100;
    assert c == q4 * 0x100_0000 + (r * 0x1_0000 + g * 0x100 + b);
    DivModUnique(c, 0x100_0000, q4, r * 0x1_0000 + g * 0x100 + b);
  }
}
