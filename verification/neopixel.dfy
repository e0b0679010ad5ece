/** The pixel buffer of the NeoPixel driver: construction, packed colours, writing
    and reading pixels, and the brightness rescale. The driver object is modelled
    as an immutable value; each mutating member returns the updated value. */
module NeoPixel {
  import opened IntTypes
  import opened PackedColor
  import opened ColorOrder
  import opened Brightness

  /** The `pixels` pointer: null when allocation failed, otherwise the bytes it owns. */
  datatype Buffer = Null | Allocated(bytes: seq<uint8>)

  /** The driver's buffer state. Pin, port register, pin mask and the latch
      timestamp belong to the transmit half and are not part of this model. */
  datatype Strip = Strip(numLEDs: uint16, pixels: Buffer, offsets: Offsets, brightness: uint8)

  /** `numBytes = numLEDs * 3` fits the 16-bit counter, an allocated buffer holds
      exactly that many bytes, and each channel has a byte of its own. */
  predicate Valid(s: Strip) {
    && 3 * s.numLEDs < 0x1_0000
    && (s.pixels.Allocated? ==> |s.pixels.bytes| == 3 * s.numLEDs)
    && IsPermutation(s.offsets)
  }

  /** Every stored byte is at most the ceiling of the current stored brightness. */
  predicate WithinCeiling(s: Strip) {
    s.pixels.Allocated? ==>
      forall i :: 0 <= i < |s.pixels.bytes| ==> s.pixels.bytes[i] <= Ceiling(s.brightness)
  }

  /** Pixel `n` may be touched: it is in range, and then the buffer must exist,
      because the driver dereferences `pixels` without testing it. */
  predicate CanAccess(s: Strip, n: uint16) {
    n < s.numLEDs ==> s.pixels.Allocated?
  }

  /** Constructor. Allocation success and the initial stored brightness are
      parameters: the first is up to `malloc`, the second is not set by the
      constructor at all. */
  function NewStrip(n: uint16, t: TypeFlags, allocOk: bool, brightness: uint8): (s: Strip)
    requires 3 * n < 0x1_0000
    ensures Valid(s) && WithinCeiling(s)
    ensures s.numLEDs == n && s.brightness == brightness
    ensures s.pixels.Allocated? <==> allocOk
    ensures s.pixels.Allocated? ==> forall i :: 0 <= i < |s.pixels.bytes| ==> s.pixels.bytes[i] == 0
    ensures {s.offsets.r, s.offsets.g, s.offsets.b} == {0, 1, 2}
    ensures t.grb ==> s.offsets == Offsets(1, 0, 2)
    ensures !t.grb && t.brg ==> s.offsets == Offsets(1, 2, 0)
    ensures !t.grb && !t.brg ==> s.offsets == Offsets(0, 1, 2)
  {
    var pixels := if allocOk then Allocated(seq(3 * n, _ => 0)) else Null;
    Strip(n, pixels, OffsetsFor(OrderOf(t)), brightness)
  }

  /** Writes one pixel's three channel bytes at its colour-order offsets
      (`p = &pixels[n * 3]; p[rOffset] = r; p[gOffset] = g; p[bOffset] = b`).
      Only triplet `n` changes; with distinct offsets each channel keeps its byte. */
  function StorePixel(bytes: seq<uint8>, n: nat, o: Offsets, r: uint8, g: uint8, b: uint8): (out: seq<uint8>)
    requires 3 * n + 3 <= |bytes|
    ensures |out| == |bytes|
    ensures forall i :: 0 <= i < |bytes| && (i < 3 * n || 3 * n + 3 <= i) ==> out[i] == bytes[i]
    ensures IsPermutation(o) ==>
      out[3 * n + o.r] == r && out[3 * n + o.g] == g && out[3 * n + o.b] == b
  {
    bytes[3 * n + o.r := r][3 * n + o.g := g][3 * n + o.b := b]
  }

  /** The raw byte at channel slot `k` of pixel `n`. */
  function ByteAt(s: Strip, n: uint16, k: Slot): uint8
    requires Valid(s) && s.pixels.Allocated? && n < s.numLEDs
  {
    s.pixels.bytes[3 * n + k]
  }

  /** `setPixelColor(n, r, g, b)`: an out-of-range index is ignored; otherwise the
      three channels, scaled by the stored brightness, are written at the pixel's
      colour-order offsets and no other byte changes. */
  function SetPixelColor(s: Strip, n: uint16, r: uint8, g: uint8, b: uint8): (t: Strip)
    requires Valid(s) && CanAccess(s, n)
    ensures Valid(t)
    ensures t.numLEDs == s.numLEDs && t.offsets == s.offsets && t.brightness == s.brightness
    ensures t.pixels.Allocated? == s.pixels.Allocated?
    ensures n >= s.numLEDs ==> t == s
    ensures n < s.numLEDs ==>
      && ByteAt(t, n, s.offsets.r) == ScaleChannel(r, s.brightness)
      && ByteAt(t, n, s.offsets.g) == ScaleChannel(g, s.brightness)
      && ByteAt(t, n, s.offsets.b) == ScaleChannel(b, s.brightness)
    ensures s.pixels.Allocated? ==>
      forall i :: 0 <= i < |s.pixels.bytes| && (i < 3 * n || 3 * n + 3 <= i) ==>
        t.pixels.bytes[i] == s.pixels.bytes[i]
    ensures WithinCeiling(s) ==> WithinCeiling(t)
  {
    if n < s.numLEDs then
      var rs, gs, bs := ScaleChannel(r, s.brightness), ScaleChannel(g, s.brightness), ScaleChannel(b, s.brightness);
      s.(pixels := Allocated(StorePixel(s.pixels.bytes, n, s.offsets, rs, gs, bs)))
    else
      s
  }

  /** `setPixelColor(n, c)`: the packed overload. It splits `c` into its red, green
      and blue bytes and then behaves exactly like the three-channel overload; bits
      31..24 of `c` play no part. */
  function SetPixelColorPacked(s: Strip, n: uint16, c: uint32): (t: Strip)
    requires Valid(s) && CanAccess(s, n)
    ensures t == SetPixelColor(s, n, Red(c), Green(c), Blue(c))
  {
    if n < s.numLEDs then
      var r, g, b := Red(c), Green(c), Blue(c);
      var rs, gs, bs := ScaleChannel(r, s.brightness), ScaleChannel(g, s.brightness), ScaleChannel(b, s.brightness);
      s.(pixels := Allocated(StorePixel(s.pixels.bytes, n, s.offsets, rs, gs, bs)))
    else
      s
  }

  /** `getPixelColor(n)`: the stored channel bytes of pixel `n` repacked in
      red/green/blue order whatever the colour order; 0 for an out-of-range index. */
  function GetPixelColor(s: Strip, n: uint16): (c: uint32)
    requires Valid(s) && CanAccess(s, n)
    ensures c < 0x100_0000
    ensures n >= s.numLEDs ==> c == 0
    ensures n < s.numLEDs ==>
      && Red(c) == ByteAt(s, n, s.offsets.r)
      && Green(c) == ByteAt(s, n, s.offsets.g)
      && Blue(c) == ByteAt(s, n, s.offsets.b)
  {
    if n < s.numLEDs then
      var p := s.pixels.bytes;
      var r, g, b := p[3 * n + s.offsets.r], p[3 * n + s.offsets.g], p[3 * n + s.offsets.b];
      ColorRoundTrip(r, g, b);
      Color(r, g, b)
    else
      0
  }

  /** `getPixels()`: the raw buffer in device byte order, untranslated. Each
      triplet holds, at the colour-order offsets, the channels `getPixelColor`
      reports for that pixel. */
  function GetPixels(s: Strip): (p: Buffer)
    requires Valid(s)
    ensures p.Allocated? <==> s.pixels.Allocated?
    ensures p.Allocated? ==> |p.bytes| == 3 * s.numLEDs
    ensures p.Allocated? ==> forall n: uint16 :: n < s.numLEDs ==>
      GetPixelColor(s, n) == Color(p.bytes[3 * n + s.offsets.r], p.bytes[3 * n + s.offsets.g], p.bytes[3 * n + s.offsets.b])
  {
    s.pixels
  }

  /** `numPixels()`: the number of addressable pixels; the raw buffer holds three
      bytes for each, every index from this count up reads as black, and (without
      a buffer) exactly those indices are safe to access. */
  function NumPixels(s: Strip): (count: uint16)
    requires Valid(s)
    ensures s.pixels.Allocated? ==> |s.pixels.bytes| == 3 * count
    ensures forall n: uint16 :: count <= n ==> CanAccess(s, n) && GetPixelColor(s, n) == 0
    ensures s.pixels.Null? ==> forall n: uint16 :: CanAccess(s, n) <==> count <= n
  {
    s.numLEDs
  }

  /** The rescale pass applied to every byte of a buffer. */
  function RescaleAll(bytes: seq<uint8>, scale: uint16): seq<uint8> {
    seq(|bytes|, i requires 0 <= i < |bytes| => RescaleByte(bytes[i], scale))
  }

  /** `setBrightness(b)` may dereference `pixels` only when the level changes and
      there is at least one byte to rescale. */
  predicate CanSetBrightness(s: Strip, b: uint8) {
    ToU8(b + 1) != s.brightness && s.numLEDs > 0 ==> s.pixels.Allocated?
  }

  /** `setBrightness(b)`: stores `(b + 1) mod 256`. An unchanged level is a no-op;
      otherwise every stored byte is rescaled by `RescaleFactor`, which clears the
      buffer when the strip was off. The rescale keeps the ceiling invariant. */
  function Brightened(s: Strip, b: uint8): (t: Strip)
    requires Valid(s) && CanSetBrightness(s, b)
    ensures Valid(t)
    ensures t.brightness == ToU8(b + 1)
    ensures t.numLEDs == s.numLEDs && t.offsets == s.offsets
    ensures t.pixels.Allocated? == s.pixels.Allocated?
    ensures ToU8(b + 1) == s.brightness ==> t == s
    ensures s.brightness == 1 != t.brightness && t.pixels.Allocated? ==>
      forall i :: 0 <= i < |t.pixels.bytes| ==> t.pixels.bytes[i] == 0
    ensures WithinCeiling(s) ==> WithinCeiling(t)
  {
    var newB := ToU8(b + 1);
    if newB == s.brightness then
      s
    else
      var scale := RescaleFactor(s.brightness, b);
      var pixels := if s.pixels.Allocated? then Allocated(RescaleAll(s.pixels.bytes, scale)) else Null;
      var t := s.(pixels := pixels, brightness := newB);
      assert WithinCeiling(s) ==> WithinCeiling(t) by {
        if WithinCeiling(s) && t.pixels.Allocated? {
          forall i | 0 <= i < |t.pixels.bytes|
            ensures t.pixels.bytes[i] <= Ceiling(newB)
          {
            RescaleWithinCeiling(s.brightness, b, s.pixels.bytes[i]);
          }
        }
      }
      t
  }

  /** The rescale loop of `setBrightness`, run in place over a copy of the buffer. */
  method RescaleInPlace(bytes: seq<uint8>, scale: uint16) returns (out: seq<uint8>)
    ensures |out| == |bytes|
    ensures forall i :: 0 <= i < |bytes| ==> out[i] == RescaleByte(bytes[i], scale)
  {
    var a := new uint8[|bytes|](i requires 0 <= i < |bytes| => bytes[i]);
    var i := 0;
    while i < a.Length
      invariant 0 <= i <= a.Length == |bytes|
      invariant forall j :: 0 <= j < i ==> a[j] == RescaleByte(bytes[j], scale)
      invariant forall j :: i <= j < a.Length ==> a[j] == bytes[j]
    {
      var c := a[i];
      a[i] := ToU8((c * scale) / 0x100);
      i := i + 1;
    }
    out := a[..];
  }

  /** `setBrightness(b)` as the driver runs it: the comparison against the stored
      value, the three-way choice of factor, and the rescale loop. */
  method SetBrightness(s: Strip, b: uint8) returns (t: Strip)
    requires Valid(s) && CanSetBrightness(s, b)
    ensures t == Brightened(s, b)
  {
    var newBrightness := ToU8(b + 1);
    t := s;
    if newBrightness != s.brightness {
      var oldBrightness := ToU8(s.brightness - 1);
      var scale: uint16;
      if oldBrightness == 0 {
        scale := 0;
      } else if b == 0xFF {
        scale := 0xFFFF / (oldBrightness as int);
      } else {
        scale := (newBrightness as int * 0x100 - 1) / (oldBrightness as int);
      }
      if s.pixels.Allocated? {
        var bytes := RescaleInPlace(s.pixels.bytes, scale);
        t := t.(pixels := Allocated(bytes));
      }
      t := t.(brightness := newBrightness);
    }
  }
}
