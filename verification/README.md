# NeoPixel pixel buffer, in Dafny

A model of the pixel-buffer half of the COM12999 NeoPixel driver
(`Code/COM12999_NeoPixel.cpp`), an Arduino library for WS2811/WS2812-style
single-wire RGB LEDs. The driver keeps one byte triplet per LED in device byte
order, and remembers a colour order (RGB, GRB or BRG) and a global brightness.
It offers:

- construction, which picks the per-channel byte offsets and zero-fills the buffer;
- `Color(r, g, b)`, which packs a colour into `0x00RRGGBB`;
- the two `setPixelColor` overloads, which bounds-check the index, scale each
  channel by the stored brightness and store it at its colour-order offset;
- `getPixelColor`, which repacks a pixel in red/green/blue order and returns 0
  out of range;
- `getPixels` and `numPixels`, the raw accessors;
- `setBrightness`, which stores the level biased by one (wrapped to 8 bits, so
  stored 0 means "no scaling" and stored 1 means "off") and rescales every stored
  byte in place.

The driver object is modelled as an immutable value `NeoPixel.Strip`. Each
mutating call returns the updated value.

Files, one module each:

- `int_types.dfy` (`IntTypes`): `uint8`/`uint16`/`uint32` subset types and the
  C truncations. It also proves that the AVR's 16-bit unsigned arithmetic, which
  wraps, yields the same stored byte as exact arithmetic. For the signed 16-bit
  `int` product, whose overflow C++ leaves undefined, the same result is proved
  under an assumption about the compiler: that it wraps in two's complement and
  shifts right arithmetically, as avr-gcc does.
- `packed_color.dfy` (`PackedColor`): the packed colour word and its channel
  extraction. Both round trips are proved.
- `color_order.dfy` (`ColorOrder`): the type flags, the three orders, and the
  offsets, which are proved to be a permutation of {0, 1, 2}.
- `brightness.dfy` (`Brightness`): channel scaling, the brightness "ceiling",
  the rescale factor of `setBrightness`, and the per-byte rescale.
- `neopixel.dfy` (`NeoPixel`): the strip state and the driver operations.
  `setBrightness` is also given as a method whose loop rescales an array in place.
- `neopixel_properties.dfy` (`NeoPixelProperties`): lemmas that relate the
  operations: read-back, pixel independence, the packed overload, idempotence,
  and the effect of brightness changes.

Central invariant (`NeoPixel.WithinCeiling`): every stored byte is at most
`Ceiling(brightness)`. The ceiling is 255 at stored brightness 0 and
`brightness - 1` otherwise. It is exactly the "de-wrapped" old brightness that
`setBrightness` divides by. Construction establishes the invariant, and both
`setPixelColor` and `setBrightness` keep it. Under it, the rescale product
`c * scale` never exceeds 65535, so neither the 16-bit multiply nor the byte
store truncates. The invariant is a property of strips written only through
`setPixelColor`: a caller that writes through the pointer `getPixels` returns
can store a byte above the ceiling, and then the rescale can wrap
(`Brightness.RescaleOutsideCeilingWraps` gives an instance).

Decisions where the sources leave room:

- **Null buffer.** Only `show()` (line 74) and the destructor (line 63) test
  `pixels` for null. `setPixelColor`, `getPixelColor` and `setBrightness`
  dereference it without a test (lines 195, 214, 231, 281). Touching an allocated pixel is a
  precondition (`CanAccess`, `CanSetBrightness`), but only on the paths that
  actually dereference: an in-range index, or a changed brightness with at least
  one byte.
- **Initial brightness.** The constructor does not initialise `brightness`, so
  `NewStrip` takes the initial stored value as a parameter.
- **Colour-order flags.** Their bit values live in a header that is not part of
  this model. `TypeFlags(grb, brg)` records the two tested bits, and `OrderOf`
  keeps the source's test order: GRB wins when both bits are set.
- **Buffer size.** `numBytes = n * 3` is required to fit in 16 bits (`3 * n < 65536`).
- **Bitwise or.** `Color` is written as the sum `r * 65536 + g * 256 + b`. The
  three shifted fields do not overlap, so the sum equals the source's `|`.

## Model

| member | source | states |
|---|---|---|
| `NeoPixel.NewStrip` | Code/COM12999_NeoPixel.cpp:36-58 | the new strip is valid and satisfies the ceiling invariant; it keeps `n` and the given brightness; the buffer exists exactly when allocation succeeded, and then holds 3n zero bytes; the offsets are (1, 0, 2) when the GRB bit is set, else (1, 2, 0) when the BRG bit is set, else (0, 1, 2) |
| `ColorOrder.OrderOf` | Code/COM12999_NeoPixel.cpp:46-58 | the order is GRB exactly when the GRB bit is set, BRG exactly when only the BRG bit is set, and RGB exactly when neither is |
| `ColorOrder.OffsetsFor` | Code/COM12999_NeoPixel.cpp:46-58 | for each colour order, the chosen (r, g, b) offsets are pairwise distinct and together form {0, 1, 2} |
| `ColorOrder.OffsetsIdentifyOrder` | Code/COM12999_NeoPixel.cpp:46-58 | two orders get the same offsets if and only if they are the same order |
| `PackedColor.Color` | Code/COM12999_NeoPixel.cpp:223-225 | a packed colour is below 2^24 |
| `PackedColor.ColorRoundTrip` | Code/COM12999_NeoPixel.cpp:223-225 | bits 23..16, 15..8 and 7..0 of `Color(r, g, b)` are exactly r, g and b |
| `PackedColor.Red` | Code/COM12999_NeoPixel.cpp:206 | the red byte is bits 23..16 of c; bits 31..24 play no part |
| `PackedColor.Green` | Code/COM12999_NeoPixel.cpp:207 | the green byte is bits 15..8 of c |
| `PackedColor.Blue` | Code/COM12999_NeoPixel.cpp:208 | the blue byte agrees with c modulo 256 |
| `PackedColor.ChannelsRoundTrip` | Code/COM12999_NeoPixel.cpp:205-208 | repacking the three bytes extracted from a 32-bit colour gives the colour's low 24 bits |
| `Brightness.ScaleChannel` | Code/COM12999_NeoPixel.cpp:190-194 | at stored brightness 0 a channel is stored unchanged; at stored brightness s ≠ 0 it is at most s − 1, and strictly below a non-zero input |
| `Brightness.ScaleChannelOnAvr` | Code/COM12999_NeoPixel.cpp:191-193 | with the product taken as an overflowing signed 16-bit `int` and shifted arithmetically, the stored byte equals the exact `(v * s) >> 8` |
| `IntTypes.HighByteOf16BitWord` | Code/COM12999_NeoPixel.cpp:282 | `(x mod 2^16) >> 8 == (x >> 8) mod 2^8` for every natural x |
| `Brightness.Ceiling` | Code/COM12999_NeoPixel.cpp:275 | the ceiling equals the de-wrapped old brightness `(uint8_t)(brightness - 1)`; no channel is scaled above it, and a full-scale channel reaches it |
| `Brightness.RescaleFactor` | Code/COM12999_NeoPixel.cpp:277-279 | the rescale factor is zero exactly when the stored brightness was 1 (off) |
| `Brightness.RescaleByte` | Code/COM12999_NeoPixel.cpp:282 | the rescaled byte is the high byte of the wrapping 16-bit product `c * scale`; when the product fits in 16 bits it is the exact `(c * scale) >> 8` |
| `Brightness.RescaleOutsideCeilingWraps` | Code/COM12999_NeoPixel.cpp:275-282 | from stored brightness 11, `setBrightness(255)` uses factor 6553, which maps byte 255 (above the ceiling 10) to 127 but byte 10 to 255 |
| `Brightness.RescaleWithinCeiling` | Code/COM12999_NeoPixel.cpp:275-284 | for a byte under the old ceiling, `c * scale` fits in 16 bits, the byte store does not truncate, and the result is under the new ceiling |
| `Brightness.RescaleMapsCeilingToCeiling` | Code/COM12999_NeoPixel.cpp:277-279 | unless the strip was off, the old ceiling is rescaled to exactly the new ceiling (255 for `setBrightness(255)`) |
| `Brightness.RescaleMonotone` | Code/COM12999_NeoPixel.cpp:280-283 | while the product does not wrap, a byte never rescales above a byte at least as large |
| `NeoPixel.StorePixel` | Code/COM12999_NeoPixel.cpp:195-198 | storing a pixel keeps the buffer length and every byte outside triplet n; with distinct offsets, the red, green and blue bytes sit at their offsets within the triplet |
| `NeoPixel.SetPixelColor` | Code/COM12999_NeoPixel.cpp:187-200 | out of range the strip is unchanged; in range the three scaled channels sit at their colour-order offsets of triplet n, and no byte outside 3n..3n+2 changes; the length, brightness, offsets and ceiling invariant are kept |
| `NeoPixel.SetPixelColorPacked` | Code/COM12999_NeoPixel.cpp:203-219 | the packed overload behaves exactly like the three-channel overload applied to bytes 2, 1 and 0 of c |
| `NeoPixel.GetPixelColor` | Code/COM12999_NeoPixel.cpp:228-238 | the result is below 2^24; it is 0 out of range; in range its red, green and blue bytes are the stored bytes at the red, green and blue offsets |
| `NeoPixel.GetPixels` | Code/COM12999_NeoPixel.cpp:240-245 | the raw buffer exists exactly when the strip has one, holds 3 bytes per pixel, and in each triplet holds at the colour-order offsets the channels `getPixelColor` reports |
| `NeoPixel.NumPixels` | Code/COM12999_NeoPixel.cpp:247-249 | the buffer holds three bytes per counted pixel; every index from the count up reads as 0; without a buffer, exactly the indices from the count up are safe to access |
| `NeoPixelProperties.NumPixelsOfNewStrip` | Code/COM12999_NeoPixel.cpp:247-249 | a new strip reports the count it was built with, whether or not allocation succeeded, and still does after a write or a brightness change |
| `NeoPixel.Brightened` | Code/COM12999_NeoPixel.cpp:263-286 | the stored brightness becomes (b + 1) mod 256; an unchanged level changes nothing; leaving "off" zeroes every byte; length, offsets, buffer presence and the ceiling invariant are kept |
| `NeoPixel.RescaleInPlace` | Code/COM12999_NeoPixel.cpp:280-283 | the in-place loop leaves the buffer length unchanged and replaces every byte c by its rescaled value |
| `NeoPixel.SetBrightness` | Code/COM12999_NeoPixel.cpp:270-285 | the imperative comparison, factor choice and loop compute exactly `Brightened` |
| `NeoPixelProperties.ReadBackScaled` | Code/COM12999_NeoPixel.cpp:228-238 | reading a just-written pixel gives the written colour with each channel scaled by the stored brightness, for every colour order |
| `NeoPixelProperties.ReadBackAtFullBrightness` | Code/COM12999_NeoPixel.cpp:187-200 | at stored brightness 0, `getPixelColor(n)` after `setPixelColor(n, r, g, b)` is `Color(r, g, b)` |
| `NeoPixelProperties.ReadBackOnNewStrip` | Code/COM12999_NeoPixel.cpp:36-58 | on a new allocated strip at stored brightness 0, of any colour order, a written pixel reads back exactly |
| `NeoPixelProperties.NewStripIsBlack` | Code/COM12999_NeoPixel.cpp:43-44 | every pixel of a freshly allocated strip reads as 0 |
| `NeoPixelProperties.WritesAreIndependent` | Code/COM12999_NeoPixel.cpp:195-198 | writing pixel n does not change what any other pixel m reads |
| `NeoPixelProperties.PackedIgnoresHighByte` | Code/COM12999_NeoPixel.cpp:205-208 | the packed overload stores the same for c and for c mod 2^24 |
| `NeoPixelProperties.PackedReadBack` | Code/COM12999_NeoPixel.cpp:203-219 | at stored brightness 0 a packed colour reads back as its low 24 bits |
| `NeoPixelProperties.SetBrightnessIdempotent` | Code/COM12999_NeoPixel.cpp:270-271 | a second `setBrightness(b)` with the same b changes nothing |
| `NeoPixelProperties.WritesAfterOffAreBlack` | Code/COM12999_NeoPixel.cpp:264-270 | after `setBrightness(0)` every write stores black |
| `NeoPixelProperties.ReadBackAfterFullBrightness` | Code/COM12999_NeoPixel.cpp:263-270 | after `setBrightness(255)` every write reads back exactly |
| `NeoPixelProperties.RescaleNeverWraps` | Code/COM12999_NeoPixel.cpp:280-283 | under the ceiling invariant, every product `c * scale` of the rescale pass is below 65536 |
| `NeoPixelProperties.DimmingToOffClears` | Code/COM12999_NeoPixel.cpp:275-284 | under the ceiling invariant, `setBrightness(0)` turns every pixel black |
| `NeoPixelProperties.BrightnessChangeKeepsOrder` | Code/COM12999_NeoPixel.cpp:280-283 | under the ceiling invariant, a brightness change never lets a byte overtake one that was at least as bright |
| `NeoPixelProperties.BrightestStaysBrightest` | Code/COM12999_NeoPixel.cpp:277-283 | a byte at the old ceiling ends at the new ceiling, unless the strip was off |
| `NeoPixelProperties.GrbExample` | Code/COM12999_NeoPixel.cpp:46-49 | a one-pixel GRB strip stores (10, 20, 30) as bytes 20, 10, 30 and reads back `Color(10, 20, 30)` |

## Left out

- `show()` (lines 72-172) is left out. It busy-waits on `micros()` for the 50 µs
  latch, disables interrupts, and emits the bits with cycle-counted AVR assembly.
  Wall-clock and cycle timing cannot be stated in this model. Informally, it sends
  the buffer bytes in order, bit 7 first (lines 131, 138, 151).
- `begin`, `setPin` and the destructor's pin calls (lines 62-70, 174-184), and
  the cached `port` and `pinMask` registers, are hardware I/O.
- `malloc`, `memset` and `free` are not modelled as memory. Allocation is a
  success flag given to `NewStrip`: success yields a zero-filled buffer of 3n
  bytes, failure a `Null` buffer.
- `endTime` and the pin number are not part of the state, because only the
  transmit half uses them.
- The numeric values of `NEO_GRB` and `NEO_BRG` are not modelled; the header that
  defines them is not part of this model.
- NeoPixel.NewStrip: requires `3 * n < 65536`. For larger `n` the 16-bit
  `numBytes` would wrap, the buffer would be too short, and in-range writes would
  run past its end. That behaviour is not modelled.
- NeoPixel.SetPixelColor: requires an allocated buffer for an in-range index,
  because the code dereferences `pixels` there (line 195).
- NeoPixel.SetPixelColorPacked: same null-buffer precondition as `SetPixelColor`.
- NeoPixel.GetPixelColor: same null-buffer precondition for an in-range index.
- NeoPixel.Brightened: requires an allocated buffer when the level changes and
  the strip has at least one pixel, because the rescale loop dereferences it.
- NeoPixel.SetBrightness: same precondition as `Brightened`.
- NeoPixel.GetPixels: writes through the returned pointer are not modelled. The
  ceiling invariant, and with it `RescaleNeverWraps`, `DimmingToOffClears` and
  `BrightnessChangeKeepsOrder`, holds only while the buffer is written through
  `setPixelColor`.
