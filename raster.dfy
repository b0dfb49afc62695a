/** The panel's pixels as one row-major stream, and the one-bit plane that
    both converters of the driver fill from it: pixel (x, y) is stream
    position 880 * y + x, its byte is x / 8 + 110 * y and its bit is
    0x80 >> (x % 8). Rows end on byte boundaries, so stream position s sits
    in byte s / 8 at bit s % 8. */
module Raster {
  import opened Bytes
  import opened Geometry

  /** The stream of a per-pixel predicate: position s is column s % 880 of
      row s / 880. */
  function Stream(on: (int, int) -> bool): nat -> bool
  {
    s => on(s % DisplayWidth, s / DisplayWidth)
  }

  /** Pixel (x, y) of the panel is stream position 880 * y + x. */
  lemma StreamAt(on: (int, int) -> bool, x: int, y: int)
    requires 0 <= x < DisplayWidth && 0 <= y
    ensures Stream(on)(DisplayWidth * y + x) == on(x, y)
    ensures (DisplayWidth * y + x) % 8 == x % 8
  {
    var s := DisplayWidth * y + x;
    assert s / DisplayWidth == y && s % DisplayWidth == x;
  }

  /** Two stream positions fewer than 8 apart lie in different columns of a byte. */
  lemma NearColumnsDiffer(m: int, s: int)
    requires 0 < s - m < 8
    ensures m % 8 != s % 8
  {
  }

  /** Writing pixel s into a byte that holds pixels lo .. s-1: setting its
      bit when the pixel is on gives the byte that holds lo .. s, and so
      does clearing it, or leaving it alone, when the pixel is off. */
  lemma PutBit(f: nat -> bool, lo: nat, s: nat, v: byte)
    requires lo <= s < lo + 8 && v == Bits(f, lo, s)
    ensures f(s) ==> v | Mask(s) == Bits(f, lo, s + 1)
    ensures !f(s) ==> v & !Mask(s) == Bits(f, lo, s + 1) && v == Bits(f, lo, s + 1)
  {
    forall m | lo <= m < s ensures m % 8 != s % 8 {
      NearColumnsDiffer(m, s);
    }
    BitsOutside(f, lo, s, s);
    BitsStep(f, lo, s);
  }

  /** Bit x % 8 of byte x / 8 + 110 * y of a packed plane is pixel (x, y). */
  lemma PlaneBit(plane: seq<byte>, on: (int, int) -> bool, x: int, y: int)
    requires |plane| == BufSize
    requires forall k :: 0 <= k < BufSize ==> plane[k] == Pack(Stream(on), k, 8)
    requires 0 <= x < DisplayWidth && 0 <= y < DisplayHeight
    ensures 0 <= x / 8 + DisplayWidthBytes * y < BufSize
    ensures (plane[x / 8 + DisplayWidthBytes * y] & Mask(x) != 0) == on(x, y)
  {
    PlaneIndex(x, y);
    var k := x / 8 + DisplayWidthBytes * y;
    PackAt(Stream(on), k, x % 8);
    assert 8 * k + x % 8 == DisplayWidth * y + x;
    StreamAt(on, x, y);
    MaskDisjoint(x, x % 8);
  }

  /** The first n bytes of the densely packed stream f. */
  ghost function Packed(f: nat -> bool, n: nat): (p: seq<byte>)
    ensures |p| == n && forall k :: 0 <= k < n ==> p[k] == Pack(f, k, 8)
  {
    seq(n, (k: nat) => Pack(f, k, 8))
  }

  /** One more packed byte extends the packed prefix. */
  lemma PackedSnoc(b: seq<byte>, f: nat -> bool, q: nat)
    requires q < |b| && b[..q] == Packed(f, q) && b[q] == Pack(f, q, 8)
    ensures b[..q + 1] == Packed(f, q + 1)
  {
    assert b[..q + 1] == b[..q] + [b[q]];
  }

  /** A plane filled up to stream position s: the bytes before q hold their
      eight pixels, byte q holds pixels 8 * q .. s - 1, later bytes are
      zero. */
  ghost predicate Filled(b: seq<byte>, f: nat -> bool, q: int, s: int)
  {
    |b| == BufSize && 0 <= q <= BufSize && 8 * q <= s < 8 * q + 8
    && b[..q] == Packed(f, q)
    && (q < BufSize ==> b[q] == Bits(f, 8 * q, s))
    && (forall k :: q < k < BufSize ==> b[k] == 0)
  }

  /** A plane filled up to a byte boundary: the bytes before q hold their
      eight pixels and the rest are zero. */
  ghost predicate Rows(b: seq<byte>, f: nat -> bool, q: int)
  {
    |b| == BufSize && 0 <= q <= BufSize && b[..q] == Packed(f, q)
    && (forall k :: q <= k < BufSize ==> b[k] == 0)
  }

  /** At a byte boundary the two descriptions agree. */
  lemma RowsFilled(b: seq<byte>, f: nat -> bool, q: int, s: int)
    requires s == 8 * q
    ensures Rows(b, f, q) <==> Filled(b, f, q, s)
  {
  }

  /** A plane filled up to the end holds every byte packed. */
  lemma FilledAll(b: seq<byte>, f: nat -> bool, q: int)
    requires Rows(b, f, q) && q == BufSize
    ensures b == Packed(f, BufSize)
  {
    assert b == b[..q];
  }

  /** The byte b with bit m set when the pixel is on, and otherwise cleared
      when `clears`, left alone when not. */
  function Put(b: byte, m: byte, on: bool, clears: bool): byte
  {
    if on then b | m else if clears then b & !m else b
  }

  /** Putting pixel s into the byte that holds pixels 8 * q .. s - 1 gives
      the byte that holds 8 * q .. s. */
  lemma PutValue(f: nat -> bool, q: int, s: int, v: byte, clears: bool)
    requires 0 <= 8 * q <= s < 8 * q + 8 && v == Bits(f, 8 * q, s)
    ensures Put(v, Mask(s), f(s), clears) == Bits(f, 8 * q, s + 1)
  {
    PutBit(f, 8 * q, s, v);
  }

  /** Storing the byte that holds pixels 8 * q .. s keeps the plane filled,
      one position further. */
  lemma FilledStep(b: seq<byte>, f: nat -> bool, q: int, s: int, v: byte)
    requires Filled(b, f, q, s) && q < BufSize && v == Bits(f, 8 * q, s + 1)
    ensures Filled(b[q := v], f, if (s + 1) % 8 == 0 then q + 1 else q, s + 1)
  {
    var b' := b[q := v];
    assert b'[..q] == b[..q];
    if (s + 1) % 8 == 0 {
      assert s + 1 == 8 * q + 8;
      PackedSnoc(b', f, q);
    }
  }

  /** The pixel loop shared by convert and the older Convert: a BufSize
      buffer of zeroes, then for every pixel of the panel, row by row, its
      bit set when `on` holds and, when `clears`, cleared otherwise (the
      older Convert only ever sets bits). Every byte of the result holds its
      eight pixels, each at its own bit. */
  method FillPlane(on: (int, int) -> bool, clears: bool) returns (plane: seq<byte>)
    ensures plane == Packed(Stream(on), BufSize)
  {
    var buffer := new byte[BufSize](_ => 0);
    ghost var q := 0;
    var y := 0;
    while y < DisplayHeight
      invariant 0 <= y <= DisplayHeight && q == DisplayWidthBytes * y
      invariant Rows(buffer[..], Stream(on), q)
    {
      q := FillRow(buffer, on, clears, y, q);
      y := y + 1;
    }
    plane := buffer[..];
    FilledAll(plane, Stream(on), q);
  }

  /** FillPlane's inner loop: the 880 pixels of row y, stream positions
      s .. s + 879, into bytes q .. q + 109 of the buffer. */
  method FillRow(buffer: array<byte>, on: (int, int) -> bool, clears: bool, y: int, ghost q: int)
    returns (ghost q': int)
    requires 0 <= y < DisplayHeight && q == DisplayWidthBytes * y
    requires Rows(buffer[..], Stream(on), q)
    modifies buffer
    ensures q' == q + DisplayWidthBytes
    ensures Rows(buffer[..], Stream(on), q')
  {
    var row := y * DisplayWidthBytes;
    ghost var s := DisplayWidth * y;
    ghost var cur, pos := q, s;
    RowsFilled(buffer[..], Stream(on), cur, pos);
    var x := 0;
    while x < DisplayWidth
      invariant 0 <= x <= DisplayWidth && row == y * DisplayWidthBytes && pos == s + x
      invariant Filled(buffer[..], Stream(on), cur, pos)
    {
      cur := PutPixel(buffer, on, clears, row, x, y, cur, pos);
      pos := pos + 1;
      x := x + 1;
    }
    assert cur == q + DisplayWidthBytes;
    RowsFilled(buffer[..], Stream(on), cur, pos);
    q' := cur;
  }

  /** One turn of FillRow: pixel (x, y), stream position pos, into byte
      x / 8 + row, which is byte cur; cur' is the byte the next position
      goes to. */
  method PutPixel(buffer: array<byte>, on: (int, int) -> bool, clears: bool, row: int, x: int, y: int, ghost cur: int, ghost pos: int)
    returns (ghost cur': int)
    requires 0 <= x < DisplayWidth && 0 <= y < DisplayHeight && row == y * DisplayWidthBytes
    requires pos == DisplayWidth * y + x && Filled(buffer[..], Stream(on), cur, pos)
    modifies buffer
    ensures Filled(buffer[..], Stream(on), cur', pos + 1)
  {
    var px := x / 8 + row;
    var bit := Mask(x);
    PixelStep(on, x, y, px, cur);
    ghost var before := buffer[..];
    PutValue(Stream(on), cur, pos, before[cur], clears);
    ghost var v := Put(before[cur], Mask(pos), Stream(on)(pos), clears);
    FilledStep(before, Stream(on), cur, pos, v);
    buffer[px] := Put(buffer[px], bit, on(x, y), clears);
    assert buffer[..] == before[cur := v];
    cur' := if (pos + 1) % 8 == 0 then cur + 1 else cur;
  }

  /** Pixel (x, y) is stream position 880 * y + x, in byte px at the
      same bit, and it holds whether `on` holds at (x, y). */
  lemma PixelStep(on: (int, int) -> bool, x: int, y: int, px: int, q: int)
    requires 0 <= x < DisplayWidth && 0 <= y < DisplayHeight
    requires px == x / 8 + y * DisplayWidthBytes && 8 * q <= DisplayWidth * y + x < 8 * q + 8
    ensures px == q && q < BufSize
    ensures Mask(x) == Mask(DisplayWidth * y + x) && Stream(on)(DisplayWidth * y + x) == on(x, y)
  {
    PlaneIndex(x, y);
    MaskDisjoint(x, DisplayWidth * y + x);
    StreamAt(on, x, y);
    assert DisplayWidth * y + x + 1 == 8 * (110 * y) + x + 1;
  }
}
