/** The wire encoders of display.go. `convert` packs one plane for Render;
    `Encode` and `encodeExactColors` stream a black and a red plane a byte
    at a time into two io.ByteWriters, modelled here as the two returned
    sequences. Each walks the panel's 880 x 528 pixels row by row, so pixel
    (x, y) is stream position 880 * y + x (module Raster). */
module Encoding {
  import opened Bytes
  import opened Geometry
  import opened Colors
  import opened Raster
  import opened Framebuffer

  // ---------------------------------------------------------------------
  // Pixels as the encoders read them.

  /** img.At(x, y) for a pixel inside the bounds; None where Go panics (a
      paletted index with no palette entry). */
  function Lookup(img: Source, x: int, y: int): (c: Option<RGBA>)
    ensures WellFormed(img) && In(Point(x, y), img.rect) ==> c == Some(At(img, x, y))
  {
    match img
    case Paletted(_, palette, pix) =>
      if (pix(x, y) as int) < |palette| then Some(palette[pix(x, y)]) else None
    case Picture(_, colour) => Some(colour(x, y))
  }

  /** Palette.Index over two entries: the second exactly when it is strictly
      nearer. */
  lemma IndexOfTwo(a: RGBA, b: RGBA, c: RGBA)
    ensures Index([a, b], c) == if Distance(c, b) < Distance(c, a) then 1 else 0
  {
    assert [a, b][..1] == [a];
  }

  // ---------------------------------------------------------------------
  // convert

  /** convert's palette: black then white, white then black when inverting. */
  function ConvertPalette(invert: bool): seq<RGBA>
  {
    if invert then [WhiteRGBA, BlackRGBA] else [BlackRGBA, WhiteRGBA]
  }

  /** The index convert gives pixel (x, y): that of white outside the
      bounds, that of the nearest palette entry inside. */
  function ConvertIndex(img: Source, invert: bool, x: int, y: int): int
  {
    var p := ConvertPalette(invert);
    if !In(Point(x, y), img.rect) then Index(p, WhiteRGBA)
    else match Lookup(img, x, y)
      case Some(c) => Index(p, c)
      case None => 0
  }

  /** The pixels convert sets: those of a nonzero index (the others it clears). */
  function ConvertOn(img: Source, invert: bool): (int, int) -> bool
  {
    (x, y) => ConvertIndex(img, invert, x, y) != 0
  }

  /** convert: a BufSize plane of the panel's pixels, bit 0x80 >> (x % 8) of
      byte x / 8 + 110 * y set for a nonzero palette index. */
  method Convert(img: Source, invert: bool) returns (buffer: seq<byte>)
    ensures buffer == Packed(Stream(ConvertOn(img, invert)), BufSize)
  {
    buffer := FillPlane(ConvertOn(img, invert), true);
  }

  /** Pixel (x, y) of convert's plane: outside the bounds it is white, so
      set unless inverting; inside it is set when the pixel is strictly
      nearer white than black, or, inverting, nearer black than white. */
  lemma ConvertPixel(img: Source, invert: bool, x: int, y: int)
    requires WellFormed(img) && 0 <= x < DisplayWidth && 0 <= y < DisplayHeight
    ensures 0 <= x / 8 + DisplayWidthBytes * y < BufSize
    ensures var plane := Packed(Stream(ConvertOn(img, invert)), BufSize);
      (plane[x / 8 + DisplayWidthBytes * y] & Mask(x) != 0) ==
        if !In(Point(x, y), img.rect) then !invert
        else if invert then Distance(At(img, x, y), BlackRGBA) < Distance(At(img, x, y), WhiteRGBA)
        else Distance(At(img, x, y), WhiteRGBA) < Distance(At(img, x, y), BlackRGBA)
  {
    PlaneBit(Packed(Stream(ConvertOn(img, invert)), BufSize), ConvertOn(img, invert), x, y);
    IndexOfTwo(BlackRGBA, WhiteRGBA, WhiteRGBA);
    IndexOfTwo(WhiteRGBA, BlackRGBA, WhiteRGBA);
    if In(Point(x, y), img.rect) {
      IndexOfTwo(BlackRGBA, WhiteRGBA, At(img, x, y));
      IndexOfTwo(WhiteRGBA, BlackRGBA, At(img, x, y));
    }
  }

  // ---------------------------------------------------------------------
  // Encode and encodeExactColors: what each pixel contributes.

  /** The palette Encode matches any other image against; its roles are
      white 0, black 1, highlight 2. */
  const NearestPalette: seq<RGBA> := [WhiteRGBA, BlackRGBA, RedRGBA]

  /** The index Encode gives pixel (x, y): 0 outside the bounds (and where
      Go panics), the nearest entry of NearestPalette inside. */
  function NearestClass(img: Source): (int, int) -> int
  {
    (x, y) =>
      if !In(Point(x, y), img.rect) then 0
      else match Lookup(img, x, y)
        case Some(c) => Index(NearestPalette, c)
        case None => 0
  }

  /** The index encodeExactColors gives pixel (x, y): ColorIndexAt, which is
      0 outside the bounds. */
  function ExactClass(img: Source): (int, int) -> int
    requires img.Paletted?
  {
    (x, y) => ColorIndexAt(img, x, y)
  }

  /** Whether Encode takes the exact path: a paletted image of three entries. */
  predicate IsExact(img: Source)
  {
    img.Paletted? && |img.palette| == 3
  }

  /** The pixel indices Encode reads from img. */
  function ClassOf(img: Source): (int, int) -> int
  {
    if IsExact(img) then ExactClass(img) else NearestClass(img)
  }

  /** The roles Encode gives those indices. */
  function RolesFor(img: Source): Roles
  {
    if IsExact(img) then RolesOf(img.palette) else Roles(0, 1, 2)
  }

  /** The black-plane bit the switch leaves for a pixel: set for the
      highlight index (tested first) and for white, cleared for black, left
      clear for any other index. */
  function BlackOn(cls: (int, int) -> int, roles: Roles): (int, int) -> bool
  {
    (x, y) => cls(x, y) == roles.highlight || (cls(x, y) != roles.black && cls(x, y) == roles.white)
  }

  /** The red-plane bit the switch leaves: set only for the highlight index. */
  function RedOn(cls: (int, int) -> int, roles: Roles): (int, int) -> bool
  {
    (x, y) => cls(x, y) == roles.highlight
  }

  /** With three distinct roles the two bits are the pair SetColorIndex
      writes for the colour the index is drawn as: white (1, 0), black
      (0, 0), highlight (1, 1); an index with no role leaves (0, 0). */
  lemma ShadeIsRolePair(cls: (int, int) -> int, roles: Roles, x: int, y: int)
    requires roles.white != roles.black && roles.white != roles.highlight && roles.black != roles.highlight
    ensures var k := Assign(cls(x, y), roles);
      BlackOn(cls, roles)(x, y) == (k == 0 || k == 2) && RedOn(cls, roles)(x, y) == (k == 2)
  {
  }

  /** Every red bit is also a black bit. */
  lemma RedImpliesBlack(cls: (int, int) -> int, roles: Roles, s: nat)
    ensures Stream(RedOn(cls, roles))(s) ==> Stream(BlackOn(cls, roles))(s)
  {
  }

  // ---------------------------------------------------------------------
  // The bytes that go out.

  /** Byte k goes out after stream position 8 * k + emit and holds the
      positions since the byte before it: Lo(emit, k) up to 8 * k + emit. */
  function Lo(emit: nat, k: nat): nat
  {
    if 8 * k + emit >= 7 then 8 * k + emit - 7 else 0
  }

  /** Byte k of a plane whose bytes go out after positions 8 * k + emit. */
  ghost function Window(f: nat -> bool, emit: nat, k: nat): byte
  {
    Bits(f, Lo(emit, k), 8 * k + emit + 1)
  }

  /** The first n bytes of such a plane. */
  ghost function Windows(f: nat -> bool, emit: nat, n: nat): (w: seq<byte>)
    ensures |w| == n
  {
    seq(n, (k: nat) => Window(f, emit, k))
  }

  /** The encoder after s positions: every byte due has gone out, and the
      running byte holds the positions since the last one. */
  ghost predicate Emitting(out: seq<byte>, v: byte, f: nat -> bool, emit: nat, s: int)
  {
    0 <= s && 8 * |out| + emit - 7 <= s <= 8 * |out| + emit
    && out == Windows(f, emit, |out|) && v == Bits(f, Lo(emit, |out|), s)
  }

  /** The running byte over lo .. s - 1 with pixel s put in (its bit set
      when the pixel is on, cleared or left alone when it is off) is the
      byte over lo .. s. */
  lemma ShadeBits(f: nat -> bool, lo: nat, s: int, v: byte, v': byte)
    requires lo <= s < lo + 8 && v == Bits(f, lo, s)
    requires if f(s) then v' == v | Mask(s) else v' == v & !Mask(s) || v' == v
    ensures v' == Bits(f, lo, s + 1)
  {
    PutBit(f, lo, s, v);
  }

  /** Position s = 8 * k + emit done: byte k, over Lo .. s, goes out and
      the running byte restarts at 0. */
  lemma EmitSend(out: seq<byte>, v: byte, f: nat -> bool, emit: nat, s: int, v': byte)
    requires emit < 8 && Emitting(out, v, f, emit, s) && v' == Bits(f, Lo(emit, |out|), s + 1)
    requires s % 8 == emit
    ensures Emitting(out + [v'], 0, f, emit, s + 1)
  {
    assert s == 8 * |out| + emit;
    assert out + [v'] == Windows(f, emit, |out| + 1);
    assert Lo(emit, |out| + 1) == s + 1;
  }

  /** Any other position done: the byte over Lo .. s stays the running byte. */
  lemma EmitKeep(out: seq<byte>, v: byte, f: nat -> bool, emit: nat, s: int, v': byte)
    requires emit < 8 && Emitting(out, v, f, emit, s) && v' == Bits(f, Lo(emit, |out|), s + 1)
    requires s % 8 != emit
    ensures Emitting(out, v', f, emit, s + 1)
  {
  }

  /** At a byte boundary all bytes due have gone out, s / 8 of them: 110
      for each row of the panel. */
  lemma EmittedCount(out: seq<byte>, v: byte, f: nat -> bool, emit: nat, y: int)
    requires emit < 8 && Emitting(out, v, f, emit, DisplayWidth * y)
    ensures |out| == DisplayWidthBytes * y
  {
  }

  /** Red bytes are bit-subsets of the black bytes of the same positions. */
  lemma {:induction false} BitsWithin(fr: nat -> bool, fb: nat -> bool, lo: nat, hi: nat)
    requires forall s: nat :: fr(s) ==> fb(s)
    ensures Within(Bits(fr, lo, hi), Bits(fb, lo, hi))
    decreases hi
  {
    if hi > lo {
      BitsWithin(fr, fb, lo, hi - 1);
    }
  }

  /** Byte k holds each of its positions at that position's own bit: as
      written (emit 0) pixel 8 * k at 0x80 and pixels 8 * k - 7 .. 8 * k - 1
      at 0x40 .. 0x01, carried over from the row before at a row start. */
  lemma WindowBit(f: nat -> bool, emit: nat, k: nat, m: nat)
    requires emit < 8 && Lo(emit, k) <= m <= 8 * k + emit
    ensures (Window(f, emit, k) & Mask(m) != 0) == f(m)
  {
    BitsInside(f, Lo(emit, k), 8 * k + emit + 1, m);
  }

  /** Emitting after position 8 * k + 7 packs the stream densely. */
  lemma WindowsPacked(f: nat -> bool, n: nat)
    ensures Windows(f, 7, n) == Packed(f, n)
  {
    forall k | 0 <= k < n ensures Windows(f, 7, n)[k] == Packed(f, n)[k] {
      assert Lo(7, k) == 8 * k;
    }
  }

  // ---------------------------------------------------------------------
  // The pixel loop.

  /** Pixel (x, y) is stream position s = 880 * y + x, at the same bit of
      its byte: its black and red bits are those of its index. */
  lemma PixelAt(cls: (int, int) -> int, roles: Roles, x: int, y: int, s: int)
    requires 0 <= x < DisplayWidth && 0 <= y < DisplayHeight && s == DisplayWidth * y + x
    ensures s >= 0 && s % 8 == x % 8 && Mask(s) == Mask(x)
    ensures var c := cls(x, y);
      Stream(BlackOn(cls, roles))(s) == (c == roles.highlight || (c != roles.black && c == roles.white))
      && Stream(RedOn(cls, roles))(s) == (c == roles.highlight)
  {
    StreamAt(BlackOn(cls, roles), x, y);
    StreamAt(RedOn(cls, roles), x, y);
    MaskDisjoint(x, s);
  }

  /** Encode's switch on index c: the bit of the pixel set or cleared in
      the running black and red bytes. */
  method Shade(c: int, roles: Roles, bit: byte, bbyte: byte, rbyte: byte) returns (bbyte': byte, rbyte': byte)
    ensures if c == roles.highlight || (c != roles.black && c == roles.white) then bbyte' == bbyte | bit
      else bbyte' == bbyte & !bit || bbyte' == bbyte
    ensures if c == roles.highlight then rbyte' == rbyte | bit else rbyte' == rbyte & !bit || rbyte' == rbyte
  {
    bbyte', rbyte' := bbyte, rbyte;
    if c == roles.highlight {
      bbyte' := bbyte' | bit;
      rbyte' := rbyte' | bit;
    } else if c == roles.black {
      bbyte' := bbyte' & !bit;
      rbyte' := rbyte' & !bit;
    } else if c == roles.white {
      bbyte' := bbyte' | bit;
      rbyte' := rbyte' & !bit;
    }
  }

  /** One pixel of the loop: the switch on its index, then, when
      x % 8 == emit, both bytes written and restarted at 0. */
  method EncodePixel(cls: (int, int) -> int, roles: Roles, emit: nat, x: int, y: int,
                     bbyte: byte, rbyte: byte, dstBlack: seq<byte>, dstRed: seq<byte>, ghost s: int)
    returns (bbyte': byte, rbyte': byte, dstBlack': seq<byte>, dstRed': seq<byte>)
    requires emit < 8 && 0 <= x < DisplayWidth && 0 <= y < DisplayHeight && s == DisplayWidth * y + x
    requires Emitting(dstBlack, bbyte, Stream(BlackOn(cls, roles)), emit, s)
    requires Emitting(dstRed, rbyte, Stream(RedOn(cls, roles)), emit, s)
    ensures Emitting(dstBlack', bbyte', Stream(BlackOn(cls, roles)), emit, s + 1)
    ensures Emitting(dstRed', rbyte', Stream(RedOn(cls, roles)), emit, s + 1)
  {
    var c := cls(x, y);
    var bit := Mask(x);
    bbyte', rbyte' := Shade(c, roles, bit, bbyte, rbyte);
    PixelAt(cls, roles, x, y, s);
    ShadeBits(Stream(BlackOn(cls, roles)), Lo(emit, |dstBlack|), s, bbyte, bbyte');
    ShadeBits(Stream(RedOn(cls, roles)), Lo(emit, |dstRed|), s, rbyte, rbyte');
    if x % 8 == emit {
      EmitSend(dstBlack, bbyte, Stream(BlackOn(cls, roles)), emit, s, bbyte');
      EmitSend(dstRed, rbyte, Stream(RedOn(cls, roles)), emit, s, rbyte');
      dstBlack', dstRed' := dstBlack + [bbyte'], dstRed + [rbyte'];
      bbyte', rbyte' := 0, 0;
    } else {
      EmitKeep(dstBlack, bbyte, Stream(BlackOn(cls, roles)), emit, s, bbyte');
      EmitKeep(dstRed, rbyte, Stream(RedOn(cls, roles)), emit, s, rbyte');
      dstBlack', dstRed' := dstBlack, dstRed;
    }
  }

  /** The 880 pixels of row y, stream positions s .. s + 879: 110 bytes
      go out on each plane. */
  method EncodeRow(cls: (int, int) -> int, roles: Roles, emit: nat, y: int,
                   bbyte: byte, rbyte: byte, dstBlack: seq<byte>, dstRed: seq<byte>, ghost s: int)
    returns (bbyte': byte, rbyte': byte, dstBlack': seq<byte>, dstRed': seq<byte>, ghost s': int)
    requires emit < 8 && 0 <= y < DisplayHeight && s == DisplayWidth * y
    requires Emitting(dstBlack, bbyte, Stream(BlackOn(cls, roles)), emit, s)
    requires Emitting(dstRed, rbyte, Stream(RedOn(cls, roles)), emit, s)
    ensures s' == s + DisplayWidth
    ensures Emitting(dstBlack', bbyte', Stream(BlackOn(cls, roles)), emit, s')
    ensures Emitting(dstRed', rbyte', Stream(RedOn(cls, roles)), emit, s')
  {
    bbyte', rbyte', dstBlack', dstRed' := bbyte, rbyte, dstBlack, dstRed;
    s' := s;
    var x := 0;
    while x < DisplayWidth
      invariant 0 <= x <= DisplayWidth && s' == s + x
      invariant Emitting(dstBlack', bbyte', Stream(BlackOn(cls, roles)), emit, s')
      invariant Emitting(dstRed', rbyte', Stream(RedOn(cls, roles)), emit, s')
    {
      bbyte', rbyte', dstBlack', dstRed' := EncodePixel(cls, roles, emit, x, y, bbyte', rbyte', dstBlack', dstRed', s');
      s' := s' + 1;
      x := x + 1;
    }
  }

  /** The loop Encode and encodeExactColors share, with byte k of each
      plane going out after stream position 8 * k + emit: exactly BufSize
      bytes per plane, byte k holding the positions since byte k - 1. */
  method EncodeStream(cls: (int, int) -> int, roles: Roles, emit: nat) returns (dstBlack: seq<byte>, dstRed: seq<byte>)
    requires emit < 8
    ensures dstBlack == Windows(Stream(BlackOn(cls, roles)), emit, BufSize)
    ensures dstRed == Windows(Stream(RedOn(cls, roles)), emit, BufSize)
  {
    var rbyte: byte, bbyte: byte := 0, 0;
    dstBlack, dstRed := [], [];
    ghost var s := 0;
    var y := 0;
    while y < DisplayHeight
      invariant 0 <= y <= DisplayHeight && s == DisplayWidth * y
      invariant Emitting(dstBlack, bbyte, Stream(BlackOn(cls, roles)), emit, s)
      invariant Emitting(dstRed, rbyte, Stream(RedOn(cls, roles)), emit, s)
    {
      bbyte, rbyte, dstBlack, dstRed, s := EncodeRow(cls, roles, emit, y, bbyte, rbyte, dstBlack, dstRed, s);
      y := y + 1;
    }
  }

  /** encodeExactColors, its bytes going out after positions 8 * k + emit:
      the roles of exactColorIndex, the index ColorIndexAt. */
  method EncodeExactColors(img: Source, emit: nat) returns (dstBlack: seq<byte>, dstRed: seq<byte>)
    requires emit < 8 && IsExact(img)
    ensures dstBlack == Windows(Stream(BlackOn(ClassOf(img), RolesFor(img))), emit, BufSize)
    ensures dstRed == Windows(Stream(RedOn(ClassOf(img), RolesFor(img))), emit, BufSize)
  {
    var white, black, highlight := ExactColorIndex(img.palette);
    dstBlack, dstRed := EncodeStream(ExactClass(img), Roles(white, black, highlight), emit);
  }

  /** Encode, its bytes going out after positions 8 * k + emit: a paletted
      image of three entries by encodeExactColors, any other by the
      nearest of white, black and red. */
  method EncodeWith(img: Source, emit: nat) returns (dstBlack: seq<byte>, dstRed: seq<byte>)
    requires emit < 8
    ensures dstBlack == Windows(Stream(BlackOn(ClassOf(img), RolesFor(img))), emit, BufSize)
    ensures dstRed == Windows(Stream(RedOn(ClassOf(img), RolesFor(img))), emit, BufSize)
  {
    if img.Paletted? && |img.palette| == 3 {
      dstBlack, dstRed := EncodeExactColors(img, emit);
      return;
    }
    dstBlack, dstRed := EncodeStream(NearestClass(img), Roles(0, 1, 2), emit);
  }

  /** Encode as written: a byte goes out when x % 8 == 0, after pixel x. */
  method EncodeAsWritten(img: Source) returns (dstBlack: seq<byte>, dstRed: seq<byte>)
    ensures dstBlack == Windows(Stream(BlackOn(ClassOf(img), RolesFor(img))), 0, BufSize)
    ensures dstRed == Windows(Stream(RedOn(ClassOf(img), RolesFor(img))), 0, BufSize)
  {
    dstBlack, dstRed := EncodeWith(img, 0);
  }

  /** Encode with a byte going out when x % 8 == 7, after the eighth pixel
      of the byte: both planes packed like convert's, bit 0x80 >> (x % 8)
      of byte x / 8 + 110 * y holding pixel (x, y). */
  method Encode(img: Source) returns (dstBlack: seq<byte>, dstRed: seq<byte>)
    ensures dstBlack == Packed(Stream(BlackOn(ClassOf(img), RolesFor(img))), BufSize)
    ensures dstRed == Packed(Stream(RedOn(ClassOf(img), RolesFor(img))), BufSize)
  {
    dstBlack, dstRed := EncodeWith(img, 7);
    WindowsPacked(Stream(BlackOn(ClassOf(img), RolesFor(img))), BufSize);
    WindowsPacked(Stream(RedOn(ClassOf(img), RolesFor(img))), BufSize);
  }

  /** Whichever byte emits, every red byte is a bit-subset of its black byte. */
  lemma RedWithinBlack(cls: (int, int) -> int, roles: Roles, emit: nat, k: nat)
    requires k < BufSize
    ensures Within(Windows(Stream(RedOn(cls, roles)), emit, BufSize)[k], Windows(Stream(BlackOn(cls, roles)), emit, BufSize)[k])
  {
    forall s: nat ensures Stream(RedOn(cls, roles))(s) ==> Stream(BlackOn(cls, roles))(s) {
      RedImpliesBlack(cls, roles, s);
    }
    BitsWithin(Stream(RedOn(cls, roles)), Stream(BlackOn(cls, roles)), Lo(emit, k), 8 * k + emit + 1);
  }

  /** Pixel (x, y) of Encode's planes: its black bit and red bit are those
      the switch gives its index. */
  lemma EncodePixelBits(img: Source, x: int, y: int)
    requires 0 <= x < DisplayWidth && 0 <= y < DisplayHeight
    ensures 0 <= x / 8 + DisplayWidthBytes * y < BufSize
    ensures var i, black, red := x / 8 + DisplayWidthBytes * y,
        Packed(Stream(BlackOn(ClassOf(img), RolesFor(img))), BufSize),
        Packed(Stream(RedOn(ClassOf(img), RolesFor(img))), BufSize);
      (black[i] & Mask(x) != 0) == BlackOn(ClassOf(img), RolesFor(img))(x, y)
      && (red[i] & Mask(x) != 0) == RedOn(ClassOf(img), RolesFor(img))(x, y)
  {
    PlaneBit(Packed(Stream(BlackOn(ClassOf(img), RolesFor(img))), BufSize), BlackOn(ClassOf(img), RolesFor(img)), x, y);
    PlaneBit(Packed(Stream(RedOn(ClassOf(img), RolesFor(img))), BufSize), RedOn(ClassOf(img), RolesFor(img)), x, y);
  }

  /** A white page: every pixel of the panel white. */
  const WhitePage: Source := Picture(Rect(Point(0, 0), Point(DisplayWidth, DisplayHeight)), (x, y) => WhiteRGBA)

  /** White's nearest entry of NearestPalette is white itself, index 0. */
  lemma NearestWhite()
    ensures Index(NearestPalette, WhiteRGBA) == 0
  {
    assert NearestPalette[..2][..1] == [WhiteRGBA] && NearestPalette[..2] == [WhiteRGBA, BlackRGBA];
  }

  /** Eight pixels that are all on make 0xFF when packed from the first,
      and the first alone is 0x80. */
  lemma AllOn(f: nat -> bool)
    requires forall s: nat :: s < 8 ==> f(s)
    ensures Bits(f, 0, 1) == 0x80 && Bits(f, 0, 8) == 0xFF
  {
    assert Bits(f, 0, 2) == 0xC0;
    assert Bits(f, 0, 3) == 0xE0;
    assert Bits(f, 0, 4) == 0xF0;
    assert Bits(f, 0, 5) == 0xF8;
    assert Bits(f, 0, 6) == 0xFC;
    assert Bits(f, 0, 7) == 0xFE;
  }

  /** Every pixel of the white page is drawn white, so its black bit is set. */
  lemma WhitePagePixel(x: int, y: int)
    requires 0 <= x < DisplayWidth && 0 <= y < DisplayHeight
    ensures ClassOf(WhitePage)(x, y) == 0 && BlackOn(ClassOf(WhitePage), RolesFor(WhitePage))(x, y)
  {
    NearestWhite();
  }

  /** As written, the first black byte of a white page is 0x80, not 0xFF:
      it holds pixel 0 alone, and pixels 1 .. 7 go out with pixel 8. */
  lemma WhitePageAsWritten()
    ensures Windows(Stream(BlackOn(ClassOf(WhitePage), RolesFor(WhitePage))), 0, BufSize)[0] == 0x80
    ensures Packed(Stream(BlackOn(ClassOf(WhitePage), RolesFor(WhitePage))), BufSize)[0] == 0xFF
  {
    var f := Stream(BlackOn(ClassOf(WhitePage), RolesFor(WhitePage)));
    NearestWhite();
    forall s: nat | s < 8 ensures f(s) {
      WhitePagePixel(s, 0);
      StreamAt(BlackOn(ClassOf(WhitePage), RolesFor(WhitePage)), s, 0);
    }
    AllOn(f);
    assert Window(f, 0, 0) == Bits(f, 0, 1);
  }
}
