/** Colour order: where, inside each three-byte pixel, the driver stores the red,
    green and blue channels. */
module ColorOrder {

  /** The two bits of the constructor's `type` byte that the driver tests. Their
      numeric values are not part of this model; a byte may have both set. */
  datatype TypeFlags = TypeFlags(grb: bool, brg: bool)

  /** The three byte orders the driver distinguishes. */
  datatype Order = RGB | GRB | BRG

  /** A byte position within one pixel's triplet. */
  type Slot = x: nat | x < 3

  /** Byte positions of red, green and blue within a pixel's triplet. */
  datatype Offsets = Offsets(r: Slot, g: Slot, b: Slot)

  /** Each channel has a byte of its own. */
  predicate IsPermutation(o: Offsets) {
    o.r != o.g && o.g != o.b && o.r != o.b
  }

  /** The GRB bit is tested first, so a byte with both bits set selects GRB;
      a byte with neither selects RGB. */
  function OrderOf(t: TypeFlags): (o: Order)
    ensures o == GRB <==> t.grb
    ensures o == BRG <==> !t.grb && t.brg
    ensures o == RGB <==> !t.grb && !t.brg
  {
    if t.grb then GRB
    else if t.brg then BRG
    else RGB
  }

  /** Per-channel offsets chosen by the constructor for each order. */
  function OffsetsFor(order: Order): (o: Offsets)
    ensures IsPermutation(o)
    ensures {o.r, o.g, o.b} == {0, 1, 2}
  {
    match order
    case GRB => Offsets(1, 0, 2)
    case BRG => Offsets(1, 2, 0)
    case RGB => Offsets(0, 1, 2)
  }

  /** Distinct orders lay a pixel out differently, so the offsets identify the order. */
  lemma OffsetsIdentifyOrder(a: Order, b: Order)
    ensures OffsetsFor(a) == OffsetsFor(b) <==> a == b
  {
  }
}
