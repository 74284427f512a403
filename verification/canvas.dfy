/**
 * The fixed canvas every image is normalised onto (index.py lines 19-26). Pixel
 * work, the white fill and the JPEG encoding are done by the imaging library;
 * what is modelled is the canvas geometry and the centring arithmetic of line 25.
 */
module Canvas {

  /** Width and height of the canvas, and the bound the thumbnail is fitted into. */
  const Side: nat := 512

  /** Top-left corner at which the thumbnail is pasted. */
  datatype Offset = Offset(x: nat, y: nat)

  /**
   * A leading margin `lead` for an extent `size` centres it on the canvas: it fits,
   * and the trailing margin is the leading one or one more.
   */
  predicate Centred(lead: nat, size: nat) {
    lead + size <= Side && lead <= Side - size - lead <= lead + 1
  }

  /**
   * Line 25: `((512 - w) // 2, (512 - h) // 2)` for a thumbnail of `w` by `h`,
   * which the thumbnail step keeps within 1..512 on each axis.
   */
  function PasteOffset(w: nat, h: nat): (o: Offset)
    requires 1 <= w <= Side && 1 <= h <= Side
    ensures Centred(o.x, w) && Centred(o.y, h)
  {
    Offset((Side - w) / 2, (Side - h) / 2)
  }

  /** The computed offset is the only centred placement. */
  lemma PasteOffsetUnique(w: nat, h: nat, o: Offset)
    requires 1 <= w <= Side && 1 <= h <= Side
    requires Centred(o.x, w) && Centred(o.y, h)
    ensures PasteOffset(w, h) == o
  {
  }

  /** Every pixel of the pasted thumbnail lands on the canvas. */
  lemma PastedPixelsOnCanvas(w: nat, h: nat, px: nat, py: nat)
    requires 1 <= w <= Side && 1 <= h <= Side
    requires px < w && py < h
    ensures PasteOffset(w, h).x + px < Side && PasteOffset(w, h).y + py < Side
  {
  }

  /**
   * A square thumbnail gets the same margins on the left and on the top, and the
   * right and bottom ones exceed them by at most one pixel.
   */
  lemma SquareMargins(side: nat)
    requires 1 <= side <= Side
    ensures PasteOffset(side, side).x == PasteOffset(side, side).y
    ensures Side - side - PasteOffset(side, side).x - PasteOffset(side, side).x <= 1
  {
  }
}
