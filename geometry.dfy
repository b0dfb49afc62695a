/** Geometry of the 7.5 inch HD three-colour panel (880 x 528 pixels). The
    same four constants are declared by both driver variants. */
module Geometry {

  /** Device width in pixels. */
  const DisplayWidth: int := 880
  /** Device width in bytes: one bit per pixel. */
  const DisplayWidthBytes: int := 880 / 8
  /** Device height in pixels. */
  const DisplayHeight: int := 528
  /** Bytes in one full plane. */
  const BufSize: int := DisplayWidthBytes * DisplayHeight

  /** Pixel (x, y) of the panel lives in byte x / 8 + 110 * y of a plane, and
      that byte index is pixel number y * 880 + x of the row-major stream
      divided by 8: rows end on byte boundaries. */
  lemma {:induction false} PlaneIndex(x: int, y: int)
    requires 0 <= x < DisplayWidth && 0 <= y < DisplayHeight
    ensures DisplayWidthBytes == 110 && BufSize == 58080
    ensures 0 <= x / 8 + DisplayWidthBytes * y < BufSize
    ensures (y * DisplayWidth + x) / 8 == x / 8 + DisplayWidthBytes * y
    ensures (y * DisplayWidth + x) % 8 == x % 8
  {
    assert y * DisplayWidth + x == 8 * (110 * y + x / 8) + x % 8;
    assert x / 8 + DisplayWidthBytes * y <= 109 + 110 * 527;
  }
}
