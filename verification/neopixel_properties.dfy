/** Properties relating the pixel-buffer operations to each other: reading back what
    was written, independence of pixels, the packed overload, and the effect of
    brightness changes on stored data. */
module NeoPixelProperties {
  import opened IntTypes
  import opened PackedColor
  import opened ColorOrder
  import opened Brightness
  import opened NeoPixel

  /** Reading a pixel back gives the written colour, each channel scaled by the
      stored brightness, whatever the colour order. */
  lemma ReadBackScaled(s: Strip, n: uint16, r: uint8, g: uint8, b: uint8)
    requires Valid(s) && s.pixels.Allocated? && n < s.numLEDs
    ensures GetPixelColor(SetPixelColor(s, n, r, g, b), n)
      == Color(ScaleChannel(r, s.brightness), ScaleChannel(g, s.brightness), ScaleChannel(b, s.brightness))
  {
    var t := SetPixelColor(s, n, r, g, b);
    var c := GetPixelColor(t, n);
    ChannelsRoundTrip(c);
  }

  /** At stored brightness 0 (no scaling) a pixel reads back exactly as written. */
  lemma ReadBackAtFullBrightness(s: Strip, n: uint16, r: uint8, g: uint8, b: uint8)
    requires Valid(s) && s.pixels.Allocated? && n < s.numLEDs && s.brightness == 0
    ensures GetPixelColor(SetPixelColor(s, n, r, g, b), n) == Color(r, g, b)
  {
    ReadBackScaled(s, n, r, g, b);
  }

  /** The same for a freshly constructed strip of any colour order. */
  lemma ReadBackOnNewStrip(count: uint16, t: TypeFlags, n: uint16, r: uint8, g: uint8, b: uint8)
    requires 3 * count < 0x1_0000 && n < count
    ensures GetPixelColor(SetPixelColor(NewStrip(count, t, true, 0), n, r, g, b), n) == Color(r, g, b)
  {
    ReadBackAtFullBrightness(NewStrip(count, t, true, 0), n, r, g, b);
  }

  /** Every pixel of a freshly allocated strip reads as black. */
  lemma NewStripIsBlack(count: uint16, t: TypeFlags, brightness: uint8, n: uint16)
    requires 3 * count < 0x1_0000
    ensures GetPixelColor(NewStrip(count, t, true, brightness), n) == 0
  {
    var s := NewStrip(count, t, true, brightness);
    ChannelsRoundTrip(GetPixelColor(s, n));
  }

  /** A strip reports the pixel count it was built with, whether or not its buffer
      was allocated, and no later write or brightness change alters it. */
  lemma NumPixelsOfNewStrip(count: uint16, t: TypeFlags, allocOk: bool, brightness: uint8,
                            n: uint16, r: uint8, g: uint8, b: uint8, level: uint8)
    requires 3 * count < 0x1_0000
    ensures NumPixels(NewStrip(count, t, allocOk, brightness)) == count
    ensures allocOk ==> NumPixels(SetPixelColor(NewStrip(count, t, allocOk, brightness), n, r, g, b)) == count
    ensures allocOk ==> NumPixels(Brightened(NewStrip(count, t, allocOk, brightness), level)) == count
  {
  }

  /** Writing one pixel leaves what every other pixel reads unchanged. */
  lemma WritesAreIndependent(s: Strip, n: uint16, m: uint16, r: uint8, g: uint8, b: uint8)
    requires Valid(s) && CanAccess(s, n) && CanAccess(s, m) && n != m
    ensures GetPixelColor(SetPixelColor(s, n, r, g, b), m) == GetPixelColor(s, m)
  {
    var t := SetPixelColor(s, n, r, g, b);
    if n < s.numLEDs && m < s.numLEDs {
      var o := s.offsets;
      assert 3 * m + 3 <= 3 * n || 3 * n + 3 <= 3 * m;
      assert ByteAt(t, m, o.r) == ByteAt(s, m, o.r);
      assert ByteAt(t, m, o.g) == ByteAt(s, m, o.g);
      assert ByteAt(t, m, o.b) == ByteAt(s, m, o.b);
      var before, after := GetPixelColor(s, m), GetPixelColor(t, m);
      ChannelsRoundTrip(before);
      ChannelsRoundTrip(after);
      assert after == Color(Red(after), Green(after), Blue(after))
                   == Color(Red(before), Green(before), Blue(before)) == before;
    }
  }

  /** Bits 31..24 of a packed colour never affect what is stored. */
  lemma PackedIgnoresHighByte(s: Strip, n: uint16, c: uint32)
    requires Valid(s) && CanAccess(s, n)
    ensures SetPixelColorPacked(s, n, c) == SetPixelColorPacked(s, n, c % 0x100_0000)
  {
    ChannelsRoundTrip(c);
    ColorRoundTrip(Red(c), Green(c), Blue(c));
  }

  /** At stored brightness 0 a packed colour reads back as its low 24 bits. */
  lemma PackedReadBack(s: Strip, n: uint16, c: uint32)
    requires Valid(s) && s.pixels.Allocated? && n < s.numLEDs && s.brightness == 0
    ensures GetPixelColor(SetPixelColorPacked(s, n, c), n) == c % 0x100_0000
  {
    ReadBackAtFullBrightness(s, n, Red(c), Green(c), Blue(c));
    ChannelsRoundTrip(c);
  }

  /** Setting the same brightness twice changes nothing the second time. */
  lemma SetBrightnessIdempotent(s: Strip, b: uint8)
    requires Valid(s) && CanSetBrightness(s, b)
    ensures CanSetBrightness(Brightened(s, b), b)
    ensures Brightened(Brightened(s, b), b) == Brightened(s, b)
  {
  }

  /** Once brightness 0 ("off") is set, every later write stores black. */
  lemma WritesAfterOffAreBlack(s: Strip, n: uint16, r: uint8, g: uint8, b: uint8)
    requires Valid(s) && CanSetBrightness(s, 0) && s.pixels.Allocated? && n < s.numLEDs
    ensures GetPixelColor(SetPixelColor(Brightened(s, 0), n, r, g, b), n) == 0
  {
    var t := Brightened(s, 0);
    ReadBackScaled(t, n, r, g, b);
  }

  /** After `setBrightness(255)` (stored 0) writes read back exactly. */
  lemma ReadBackAfterFullBrightness(s: Strip, n: uint16, r: uint8, g: uint8, b: uint8)
    requires Valid(s) && CanSetBrightness(s, 0xFF) && s.pixels.Allocated? && n < s.numLEDs
    ensures GetPixelColor(SetPixelColor(Brightened(s, 0xFF), n, r, g, b), n) == Color(r, g, b)
  {
    ReadBackAtFullBrightness(Brightened(s, 0xFF), n, r, g, b);
  }

  /** Under the ceiling invariant no rescale product exceeds 16 bits, so the AVR's
      16-bit multiply and the `uint8_t` store never truncate. */
  lemma RescaleNeverWraps(s: Strip, b: uint8)
    requires Valid(s) && WithinCeiling(s) && s.pixels.Allocated?
    ensures forall i :: 0 <= i < |s.pixels.bytes| ==>
      s.pixels.bytes[i] * RescaleFactor(s.brightness, b) < 0x1_0000
  {
    forall i | 0 <= i < |s.pixels.bytes|
      ensures s.pixels.bytes[i] * RescaleFactor(s.brightness, b) < 0x1_0000
    {
      RescaleWithinCeiling(s.brightness, b, s.pixels.bytes[i]);
    }
  }

  /** Under the ceiling invariant, dimming to off clears the whole strip. */
  lemma DimmingToOffClears(s: Strip, n: uint16)
    requires Valid(s) && WithinCeiling(s) && s.pixels.Allocated? && n < s.numLEDs
    ensures GetPixelColor(Brightened(s, 0), n) == 0
  {
    var t := Brightened(s, 0);
    assert WithinCeiling(t);
    assert Ceiling(t.brightness) == 0;
    ChannelsRoundTrip(GetPixelColor(t, n));
  }

  /** Under the ceiling invariant a brightness change keeps the relative order of
      stored bytes: a byte never overtakes one that was at least as bright. */
  lemma BrightnessChangeKeepsOrder(s: Strip, b: uint8, i: nat, j: nat)
    requires Valid(s) && WithinCeiling(s) && CanSetBrightness(s, b) && s.pixels.Allocated?
    requires i < |s.pixels.bytes| && j < |s.pixels.bytes| && s.pixels.bytes[i] <= s.pixels.bytes[j]
    ensures Brightened(s, b).pixels.bytes[i] <= Brightened(s, b).pixels.bytes[j]
  {
    if ToU8(b + 1) != s.brightness {
      var scale := RescaleFactor(s.brightness, b);
      RescaleWithinCeiling(s.brightness, b, s.pixels.bytes[j]);
      RescaleMonotone(s.pixels.bytes[i], s.pixels.bytes[j], scale);
    }
  }

  /** A byte at the old ceiling (the brightest the old level could store) ends at
      the new ceiling, unless the strip was off. */
  lemma BrightestStaysBrightest(s: Strip, b: uint8, i: nat)
    requires Valid(s) && CanSetBrightness(s, b) && s.pixels.Allocated?
    requires i < |s.pixels.bytes| && s.pixels.bytes[i] == Ceiling(s.brightness) && s.brightness != 1
    ensures Brightened(s, b).pixels.bytes[i] == Ceiling(ToU8(b + 1))
  {
    if ToU8(b + 1) != s.brightness {
      RescaleMapsCeilingToCeiling(s.brightness, b);
    }
  }

  /** A one-pixel GRB strip stores (10, 20, 30) as green, red, blue and still
      reports the colour in red/green/blue order. */
  lemma GrbExample()
    ensures var s := SetPixelColor(NewStrip(1, TypeFlags(true, false), true, 0), 0, 10, 20, 30);
      && s.pixels == Allocated([20, 10, 30])
      && GetPixelColor(s, 0) == Color(10, 20, 30)
  {
    var s := SetPixelColor(NewStrip(1, TypeFlags(true, false), true, 0), 0, 10, 20, 30);
    assert s.pixels.bytes == [20, 10, 30];
  }
}
