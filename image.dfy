/** The two-plane framebuffer of devices/epd7in5bhd/image.go: an Image keeps
    a black plane (1 = white, 0 = black) and a highlight plane (1 = red), one
    bit per pixel, MSB first, rows of ceil(width / 8) bytes. Writing a pixel
    sets its bit pair to White = (1, 0), Black = (0, 0) or Highlight = (1, 1),
    so a highlight bit is always also set in the black plane.

    The planes are specified by functions on sequences (`Planes`, `SetIndex`,
    `Decode`, `DrawRows`); the methods of the class Image change the two
    arrays and are proved equal to those functions. */
module Framebuffer {
  import opened Bytes
  import opened Colors

  /** The driver's colour: 0 white, 1 black, 2 highlight. */
  datatype Color = Color(c: uint8)

  const White := Color(0)
  const Black := Color(1)
  const Highlight := Color(2)

  /** Color.RGBA: the three roles are opaque white, black and red; any other
      value is transparent black. */
  function RGBAOf(c: Color): (r: RGBA)
    ensures c.c as int < 3 ==> r == DefaultPalette[c.c as int]
    ensures c.c as int >= 3 ==> r.a == 0
  {
    if c.c == 0 then WhiteRGBA
    else if c.c == 1 then BlackRGBA
    else if c.c == 2 then RedRGBA
    else RGBA(0, 0, 0, 0)
  }

  /** defaultPalette, as the RGBA values of White, Black and Highlight. */
  const DefaultPalette: seq<RGBA> := [WhiteRGBA, BlackRGBA, RedRGBA]

  /** model / defaultPalette.Convert: the nearest of the three colours. */
  function Model(c: RGBA): (m: Color)
    ensures m.c as int < 3
  {
    Color(Index(DefaultPalette, c) as uint8)
  }

  lemma DefaultDistinguishable()
    ensures Distinguishable(DefaultPalette)
  {
    assert Distance(WhiteRGBA, BlackRGBA) > 0;
    assert Distance(WhiteRGBA, RedRGBA) > 0;
    assert Distance(BlackRGBA, RedRGBA) > 0;
  }

  /** The colour model keeps the driver's own colours: converting the RGBA of
      White, Black or Highlight gives that colour back, so the model is
      idempotent. */
  lemma ModelKeepsRoles(c: Color)
    requires c.c as int < 3
    ensures Model(RGBAOf(c)) == c
    ensures Model(RGBAOf(Model(RGBAOf(c)))) == Model(RGBAOf(c))
  {
    DefaultDistinguishable();
    var k := c.c as int;
    assert RGBAOf(c) == DefaultPalette[k];
    IndexOfEntry(DefaultPalette, k);
    assert Index(DefaultPalette, RGBAOf(c)) == k;
  }

  /** The colour value handed to Image.Set: the driver's own Color, or any
      other colour, given by its RGBA value, which Set converts with the
      image palette (the default palette). */
  datatype ColorValue = Native(color: Color) | Foreign(rgba: RGBA)

  function ColorOf(v: ColorValue): (c: Color)
    ensures v.Native? ==> c == v.color
    ensures v.Foreign? ==> c.c as int < 3
    ensures v.Foreign? ==> forall j :: 0 <= j < 3 ==> Distance(v.rgba, DefaultPalette[c.c as int]) <= Distance(v.rgba, DefaultPalette[j])
    ensures v.Foreign? ==> forall j :: 0 <= j < c.c as int ==> Distance(v.rgba, DefaultPalette[j]) > Distance(v.rgba, DefaultPalette[c.c as int])
  {
    match v
    case Native(native) => native
    case Foreign(rgba) =>
      IndexMinimal(DefaultPalette, rgba);
      Model(rgba)
  }

  // ---------------------------------------------------------------------
  // The planes as values.

  datatype Planes = Planes(black: seq<byte>, highlight: seq<byte>)

  /** NewImage's bytes per row: ceil(dx / 8), with Go's truncating division. */
  function WidthBytes(dx: int): (wb: int)
    ensures dx >= 0 ==> wb >= 0 && 8 * wb >= dx && 8 * (wb - 1) < dx
  {
    Div8(dx) + (if dx % 8 != 0 then 1 else 0)
  }

  /** A blank image of n bytes per plane: all white, no highlight. */
  function Blank(n: nat): (pl: Planes)
    ensures |pl.black| == |pl.highlight| == n
    ensures forall i :: 0 <= i < n ==> pl.black[i] == 0xFF && pl.highlight[i] == 0x00
  {
    Planes(Repeat(0xFF, n), Repeat(0x00, n))
  }

  /** The switch of SetColorIndex on one byte of each plane: index 0 writes
      (1, 0), 1 writes (0, 0), 2 writes (1, 1), any other index nothing. */
  function PaintBlack(v: byte, bit: byte, index: int): byte
  {
    if index == 0 || index == 2 then v | bit else if index == 1 then v & !bit else v
  }

  function PaintHighlight(v: byte, bit: byte, index: int): byte
  {
    if index == 2 then v | bit else if index == 0 || index == 1 then v & !bit else v
  }

  /** The switch itself, on one byte of each plane. */
  method PaintPair(b: byte, h: byte, bit: byte, index: int) returns (nb: byte, nh: byte)
    ensures nb == PaintBlack(b, bit, index) && nh == PaintHighlight(h, bit, index)
  {
    nb, nh := b, h;
    if index == 0 {
      nb, nh := nb | bit, nh & !bit;
    } else if index == 1 {
      nb, nh := nb & !bit, nh & !bit;
    } else if index == 2 {
      nb, nh := nb | bit, nh | bit;
    }
  }

  /** The colour a bit pair denotes, as At decodes it: a highlight bit wins,
      then a black-plane bit means white, and a clear pair means black. */
  function RoleOf(b: byte, h: byte, bit: byte): Color
  {
    if h & bit != 0 then Highlight else if b & bit != 0 then White else Black
  }

  /** Byte px of a plane holds pixel (x, y): x / 8 + y * wb, Go division. */
  function Offset(wb: int, x: int, y: int): (px: int)
    ensures x >= 0 && y >= 0 && (y == 0 || wb >= 0) ==> px >= 0
  {
    assert y >= 0 && wb >= 0 ==> y * wb >= 0;
    Div8(x) + y * wb
  }

  /** SetColorIndex on the planes: a pixel whose byte lies past the end of
      the black plane is ignored; a negative byte index panics in Go. */
  function SetIndex(pl: Planes, wb: int, x: int, y: int, index: int): (r: Planes)
    requires |pl.black| == |pl.highlight| && Offset(wb, x, y) >= 0
    ensures |r.black| == |pl.black| && |r.highlight| == |pl.highlight|
  {
    var px := Offset(wb, x, y);
    if px >= |pl.black| then pl
    else
      Planes(pl.black[px := PaintBlack(pl.black[px], Mask(x), index)],
             pl.highlight[px := PaintHighlight(pl.highlight[px], Mask(x), index)])
  }

  /** Image.At on the planes with row stride wb: White outside the bounds. */
  function Decode(pl: Planes, wb: int, rect: Rectangle, x: int, y: int): Color
    requires In(Point(x, y), rect) ==> 0 <= Offset(wb, x, y) < |pl.black| && Offset(wb, x, y) < |pl.highlight|
  {
    if !In(Point(x, y), rect) then White
    else
      var px := Offset(wb, x, y);
      RoleOf(pl.black[px], pl.highlight[px], Mask(x))
  }

  /** Every highlight bit is also set in the black plane. */
  predicate Consistent(pl: Planes)
  {
    |pl.black| == |pl.highlight| && forall i {:trigger Within(pl.highlight[i], pl.black[i])} :: 0 <= i < |pl.black| ==> Within(pl.highlight[i], pl.black[i])
  }

  // ---------------------------------------------------------------------
  // Bit-pair lemmas.

  /** Painting a role and reading the same bit gives that role back. */
  lemma PaintReadBack(b: byte, h: byte, x: int, index: int)
    requires 0 <= index < 3
    ensures RoleOf(PaintBlack(b, Mask(x), index), PaintHighlight(h, Mask(x), index), Mask(x)) == Color(index as uint8)
  {
    MaskDisjoint(x, x);
  }

  /** Painting one bit leaves every other column of the byte as it was. */
  lemma PaintOther(b: byte, h: byte, x: int, x': int, index: int)
    requires x % 8 != x' % 8
    ensures RoleOf(PaintBlack(b, Mask(x), index), PaintHighlight(h, Mask(x), index), Mask(x')) == RoleOf(b, h, Mask(x'))
  {
    MaskDisjoint(x, x');
  }

  /** Painting keeps the highlight bits within the black bits. */
  lemma PaintWithin(b: byte, h: byte, bit: byte, index: int)
    requires Within(h, b)
    ensures Within(PaintHighlight(h, bit, index), PaintBlack(b, bit, index))
  {
  }

  // ---------------------------------------------------------------------
  // Properties of SetIndex and Decode.

  /** A blank image is consistent and reads White everywhere. */
  lemma BlankIsWhite(n: nat, wb: int, rect: Rectangle, x: int, y: int)
    requires In(Point(x, y), rect) ==> 0 <= Offset(wb, x, y) < n
    ensures Consistent(Blank(n))
    ensures Decode(Blank(n), wb, rect, x, y) == White
  {
    if In(Point(x, y), rect) {
      MaskDisjoint(x, x);
    }
  }

  /** SetColorIndex keeps every highlight bit within the black plane. */
  lemma SetIndexConsistent(pl: Planes, wb: int, x: int, y: int, index: int)
    requires Consistent(pl) && Offset(wb, x, y) >= 0
    ensures Consistent(SetIndex(pl, wb, x, y, index))
  {
    var px := Offset(wb, x, y);
    if px < |pl.black| {
      PaintWithin(pl.black[px], pl.highlight[px], Mask(x), index);
    }
  }

  /** Only byte px changes, and within it only the bit of column x. */
  lemma SetIndexFrame(pl: Planes, wb: int, x: int, y: int, index: int, i: int, x': int)
    requires |pl.black| == |pl.highlight| && Offset(wb, x, y) >= 0 && 0 <= i < |pl.black|
    requires i != Offset(wb, x, y) || x % 8 != x' % 8
    ensures var r := SetIndex(pl, wb, x, y, index);
      RoleOf(r.black[i], r.highlight[i], Mask(x')) == RoleOf(pl.black[i], pl.highlight[i], Mask(x'))
  {
    if i == Offset(wb, x, y) {
      PaintOther(pl.black[i], pl.highlight[i], x, x', index);
    }
  }

  /** An index other than 0, 1 and 2, or a byte past the plane, changes nothing. */
  lemma SetIndexNoOp(pl: Planes, wb: int, x: int, y: int, index: int)
    requires |pl.black| == |pl.highlight| && Offset(wb, x, y) >= 0
    requires !(0 <= index < 3) || Offset(wb, x, y) >= |pl.black|
    ensures SetIndex(pl, wb, x, y, index) == pl
  {
    var px := Offset(wb, x, y);
    if px < |pl.black| {
      assert pl.black[px := pl.black[px]] == pl.black;
      assert pl.highlight[px := pl.highlight[px]] == pl.highlight;
    }
  }

  /** Reading a pixel back with the stride it was written with gives the
      colour written. */
  lemma SetThenDecode(pl: Planes, wb: int, rect: Rectangle, x: int, y: int, index: int)
    requires |pl.black| == |pl.highlight| && 0 <= index < 3
    requires In(Point(x, y), rect) && 0 <= Offset(wb, x, y) < |pl.black|
    ensures Decode(SetIndex(pl, wb, x, y, index), wb, rect, x, y) == Color(index as uint8)
  {
    var px := Offset(wb, x, y);
    PaintReadBack(pl.black[px], pl.highlight[px], x, index);
  }

  /** Writing one pixel leaves the colour of every pixel in another byte or
      another column as it was. */
  lemma SetThenDecodeOther(pl: Planes, wb: int, rect: Rectangle, x: int, y: int, index: int, x': int, y': int)
    requires |pl.black| == |pl.highlight| && Offset(wb, x, y) >= 0
    requires In(Point(x', y'), rect) ==> 0 <= Offset(wb, x', y') < |pl.black|
    requires Offset(wb, x, y) != Offset(wb, x', y') || x % 8 != x' % 8
    ensures Decode(SetIndex(pl, wb, x, y, index), wb, rect, x', y') == Decode(pl, wb, rect, x', y')
  {
    if In(Point(x', y'), rect) {
      SetIndexFrame(pl, wb, x, y, index, Offset(wb, x', y'), x');
    }
  }

  /** In a picture whose rectangle starts at the origin, every in-bounds
      pixel has a byte inside planes of NewImage's size. */
  lemma OffsetInside(rect: Rectangle, x: int, y: int)
    requires rect.min == Point(0, 0) && In(Point(x, y), rect)
    ensures var wb := WidthBytes(rect.Dx());
      0 <= Offset(wb, x, y) < rect.Dy() * wb && Div8(x) < wb
  {
    var wb := WidthBytes(rect.Dx());
    assert Div8(x) < wb;
    assert y * wb + wb <= rect.Dy() * wb by {
      assert y + 1 <= rect.Dy();
      assert (y + 1) * wb <= rect.Dy() * wb;
    }
  }

  /** One write of a 16 x 2 image (two bytes per row, four bytes per
      plane): pixel (x, y) lies in byte px under the mask bit. */
  lemma ScenarioStep(p: Planes, x: int, y: int, index: int, px: int, bit: byte, q: Planes)
    requires |p.black| == 4 == |p.highlight|
    requires 0 <= x && 0 <= y && px == Div8(x) + y * 2 && px < 4 && bit == Mask(x)
    requires q == Planes(p.black[px := PaintBlack(p.black[px], bit, index)], p.highlight[px := PaintHighlight(p.highlight[px], bit, index)])
    ensures SetIndex(p, 2, x, y, index) == q
  {
  }

  /** color.Black, a foreign colour, converts to the driver's Black. */
  lemma ModelBlack()
    ensures ColorOf(Foreign(BlackRGBA)) == Black
  {
    ModelKeepsRoles(Black);
  }

  /** The scenario of the package's own image test, first half: a blank
      16 x 2 image (two bytes per row) with Black (color.Black, see
      ModelBlack) written at (0, 0), (8, 0) and (0, 1) holds 0x7F in bytes 0
      to 2 of the black plane. The test interleaves these writes with the
      Highlight ones below; those touch column 7 of each byte, not column 0,
      so by SetIndexFrame the order does not change the planes. */
  lemma ScenarioBlack()
    ensures WidthBytes(16) == 2
    ensures SetIndex(SetIndex(SetIndex(Blank(2 * 2), 2, 0, 0, 1), 2, 8, 0, 1), 2, 0, 1, 1)
      == Planes([0x7F, 0x7F, 0x7F, 0xFF], [0, 0, 0, 0])
  {
    assert WidthBytes(16) == 2;
    var p0 := Planes([0xFF, 0xFF, 0xFF, 0xFF], [0, 0, 0, 0]);
    assert Blank(4) == p0;
    var p1 := Planes([0x7F, 0xFF, 0xFF, 0xFF], [0, 0, 0, 0]);
    var p2 := Planes([0x7F, 0x7F, 0xFF, 0xFF], [0, 0, 0, 0]);
    ScenarioStep(p0, 0, 0, 1, 0, 0x80, p1);
    ScenarioStep(p1, 8, 0, 1, 1, 0x80, p2);
    ScenarioStep(p2, 0, 1, 1, 2, 0x80, Planes([0x7F, 0x7F, 0x7F, 0xFF], [0, 0, 0, 0]));
  }

  /** Second half: Highlight written at (7, 0), (15, 0) and (7, 1) then sets
      0x01 in bytes 0 to 2 of the highlight plane and leaves the black plane
      as it was, its bits already set. */
  lemma ScenarioHighlight()
    ensures SetIndex(SetIndex(SetIndex(Planes([0x7F, 0x7F, 0x7F, 0xFF], [0, 0, 0, 0]), 2, 7, 0, 2), 2, 15, 0, 2), 2, 7, 1, 2)
      == Planes([0x7F, 0x7F, 0x7F, 0xFF], [0x01, 0x01, 0x01, 0x00])
  {
    var p3 := Planes([0x7F, 0x7F, 0x7F, 0xFF], [0, 0, 0, 0]);
    var p4 := Planes([0x7F, 0x7F, 0x7F, 0xFF], [1, 0, 0, 0]);
    var p5 := Planes([0x7F, 0x7F, 0x7F, 0xFF], [1, 1, 0, 0]);
    ScenarioStep(p3, 7, 0, 2, 0, 0x01, p4);
    ScenarioStep(p4, 15, 0, 2, 1, 0x01, p5);
    ScenarioStep(p5, 7, 1, 2, 2, 0x01, Planes([0x7F, 0x7F, 0x7F, 0xFF], [1, 1, 1, 0]));
  }

  /** image.go's At addresses rows with the panel's 110 bytes even though
      Set uses the image's own row width: on a 16 x 200 image, setting
      (0, 1) to Black and reading it back yields White, because At reads
      byte 110 instead of byte 2. */
  lemma AtAsWrittenMisreads()
    ensures var rect := Rect(Point(0, 0), Point(16, 200));
      var wb := WidthBytes(16);
      var pl := SetIndex(Blank(200 * wb), wb, 0, 1, 1);
      Decode(pl, 110, rect, 0, 1) == White && Decode(pl, wb, rect, 0, 1) == Black
  {
    var rect := Rect(Point(0, 0), Point(16, 200));
    assert WidthBytes(16) == 2;
    var pl := SetIndex(Blank(400), 2, 0, 1, 1);
    assert Offset(110, 0, 1) == 110 && Offset(2, 0, 1) == 2;
    assert pl.black[110] == 0xFF && pl.highlight[110] == 0x00;
    assert Mask(0) == 0x80;
    SetThenDecode(Blank(400), 2, rect, 0, 1, 1);
  }

  // ---------------------------------------------------------------------
  // exactColorIndex: give the White, Black and red roles to a palette's
  // entries in that order, each claimed entry removed from the choice.

  /** The roles of a palette: the indices drawn as white, black and highlight. */
  datatype Roles = Roles(white: int, black: int, highlight: int)

  /** white, black, then color.RGBA{255, 0, 0, 255}: the order of claiming. */
  const ClaimOrder: seq<RGBA> := [WhiteRGBA, BlackRGBA, RedRGBA]

  /** The entries claimed by the colours cs in turn from ip, each claimed
      entry removed before the next colour chooses. */
  function Claim(ip: seq<RGBA>, cs: seq<RGBA>): (p: seq<RGBA>)
    requires |cs| <= |ip|
    ensures |p| == |cs|
    decreases |cs|
  {
    if cs == [] then []
    else
      var ci := Index(ip, cs[0]);
      [ip[ci]] + Claim(ip[..ci] + ip[ci + 1..], cs[1..])
  }

  /** The roles exactColorIndex returns: the position in the palette of each
      claimed entry, found again with Palette.Index. */
  function RolesOf(palette: seq<RGBA>): Roles
    requires |palette| >= 3
  {
    var p := Claim(palette, ClaimOrder);
    Roles(Index(palette, p[0]), Index(palette, p[1]), Index(palette, p[2]))
  }

  /** Claiming with cs[i..]: cs[i] claims its entry first, then the rest of
      cs claims from what is left. */
  lemma ClaimSlice(ip: seq<RGBA>, cs: seq<RGBA>, i: nat)
    requires i < |cs| && |cs| - i <= |ip|
    ensures var ci := Index(ip, cs[i]);
      Claim(ip, cs[i..]) == [ip[ci]] + Claim(ip[..ci] + ip[ci + 1..], cs[i + 1..])
  {
    assert cs[i..][0] == cs[i] && cs[i..][1..] == cs[i + 1..];
  }

  /** One turn of the claiming loop: the entry claimed by cs[i] joins the
      claimed prefix, and the rest is claimed from what remains. */
  lemma ClaimStep(p: seq<RGBA>, ip: seq<RGBA>, cs: seq<RGBA>, i: nat, target: seq<RGBA>)
    requires i < |cs| && |cs| - i <= |ip| && p + Claim(ip, cs[i..]) == target
    ensures var ci := Index(ip, cs[i]);
      (p + [ip[ci]]) + Claim(ip[..ci] + ip[ci + 1..], cs[i + 1..]) == target
  {
    ClaimSlice(ip, cs, i);
    var ci := Index(ip, cs[i]);
    MoveHead(p, ip[ci], Claim(ip[..ci] + ip[ci + 1..], cs[i + 1..]), target);
  }

  lemma MoveHead(p: seq<RGBA>, x: RGBA, tail: seq<RGBA>, target: seq<RGBA>)
    requires p + ([x] + tail) == target
    ensures (p + [x]) + tail == target
  {
    assert (p + [x]) + tail == p + ([x] + tail);
  }

  /** exactColorIndex: the claiming loop over a copy of the palette. A palette
      of fewer than three entries panics in Go (indexing an empty slice). */
  method ExactColorIndex(palette: seq<RGBA>) returns (white: int, black: int, highlight: int)
    requires |palette| >= 3
    ensures Roles(white, black, highlight) == RolesOf(palette)
    ensures 0 <= white < |palette| && 0 <= black < |palette| && 0 <= highlight < |palette|
  {
    var colors := ClaimOrder;
    var p: seq<RGBA> := [];
    var ip := palette;
    for i := 0 to 3
      invariant |ip| == |palette| - i && |p| == i
      invariant p + Claim(ip, colors[i..]) == Claim(palette, ClaimOrder)
    {
      var ci := Index(ip, colors[i]);
      ClaimStep(p, ip, colors, i, Claim(palette, ClaimOrder));
      p := p + [ip[ci]];
      ip := ip[..ci] + ip[ci + 1..];
    }
    assert colors[3..] == [];
    white, black, highlight := Index(palette, p[0]), Index(palette, p[1]), Index(palette, p[2]);
  }

  /** The last two claims, from the two entries left: black claims the entry
      nearer black (the first on a tie), highlight the other. */
  lemma ClaimTwo(ip: seq<RGBA>) returns (bi: nat)
    requires |ip| == 2
    ensures bi < 2 && Claim(ip, [BlackRGBA, RedRGBA]) == [ip[bi], ip[1 - bi]]
    ensures Distance(BlackRGBA, ip[bi]) <= Distance(BlackRGBA, ip[1 - bi])
  {
    bi := Index(ip, BlackRGBA);
    IndexMinimal(ip, BlackRGBA);
    var rest := ip[..bi] + ip[bi + 1..];
    assert rest == [ip[1 - bi]];
    assert Index(rest, RedRGBA) == 0;
    assert [BlackRGBA, RedRGBA][1..] == [RedRGBA];
    assert Claim(rest, [RedRGBA]) == [ip[1 - bi]];
  }

  /** Removing entry w of a three-entry palette leaves the other two, a and
      b, in order. */
  lemma RemoveOfThree(palette: seq<RGBA>, w: nat) returns (a: nat, b: nat)
    requires |palette| == 3 && w < 3
    ensures a < b < 3 && a != w && b != w
    ensures palette[..w] + palette[w + 1..] == [palette[a], palette[b]]
  {
    a, b := if w == 0 then 1 else 0, if w == 2 then 1 else 2;
  }

  /** The first claim: white claims entry w, and black and highlight claim
      from the two entries left. */
  lemma ClaimFirst(palette: seq<RGBA>) returns (w: nat, left: seq<RGBA>)
    requires |palette| == 3
    ensures w < 3 && w == Index(palette, WhiteRGBA) && left == palette[..w] + palette[w + 1..]
    ensures Claim(palette, ClaimOrder) == [palette[w]] + Claim(left, [BlackRGBA, RedRGBA])
  {
    w := Index(palette, WhiteRGBA);
    left := palette[..w] + palette[w + 1..];
    assert ClaimOrder[0] == WhiteRGBA && ClaimOrder[1..] == [BlackRGBA, RedRGBA];
  }

  /** The claims of a three-entry palette, spelled out: white claims entry w,
      black claims entry k among the other two, highlight the last one, h. */
  lemma ClaimThree(palette: seq<RGBA>) returns (w: nat, k: nat, h: nat)
    requires |palette| == 3
    ensures w < 3 && k < 3 && h < 3 && w != k && w != h && k != h
    ensures Distance(BlackRGBA, palette[k]) <= Distance(BlackRGBA, palette[h])
    ensures var p := Claim(palette, ClaimOrder); p[0] == palette[w] && p[1] == palette[k] && p[2] == palette[h]
  {
    var left;
    w, left := ClaimFirst(palette);
    var a, b := RemoveOfThree(palette, w);
    var bi := ClaimTwo(left);
    if bi == 0 {
      k, h := a, b;
    } else {
      k, h := b, a;
    }
    assert left[bi] == palette[k] && left[1 - bi] == palette[h];
  }

  /** With three entries that Palette.Index can tell apart, exactColorIndex
      hands out each of the three positions exactly once; white goes to the
      entry nearest white, black to the entry nearest black among the other
      two, and highlight to the last one. */
  lemma RolesPermutation(palette: seq<RGBA>)
    requires |palette| == 3 && Distinguishable(palette)
    ensures var r := RolesOf(palette);
      0 <= r.white < 3 && 0 <= r.black < 3 && 0 <= r.highlight < 3
      && r.white != r.black && r.white != r.highlight && r.black != r.highlight
      && r.white == Index(palette, WhiteRGBA)
      && Distance(BlackRGBA, palette[r.black]) <= Distance(BlackRGBA, palette[r.highlight])
  {
    var w, k, h := ClaimThree(palette);
    var w', _ := ClaimFirst(palette);
    IndexOfEntry(palette, w);
    IndexOfEntry(palette, k);
    IndexOfEntry(palette, h);
    assert RolesOf(palette) == Roles(w, k, h);
  }

  // ---------------------------------------------------------------------
  // drawExactColors: every pixel of the bounds, row by row, written with
  // the role its palette index has (white tested first, then black, then
  // highlight; an index with no role is skipped).

  /** The colour index drawExactColors writes for palette index k. */
  function Assign(k: int, roles: Roles): int
  {
    if k == roles.white then 0
    else if k == roles.black then 1
    else if k == roles.highlight then 2
    else -1
  }

  /** Pixels 0 .. x-1 of row y written onto pl. */
  function DrawRow(pl: Planes, wb: int, src: Source, roles: Roles, y: nat, x: int): (r: Planes)
    requires src.Paletted? && |pl.black| == |pl.highlight| && (y == 0 || wb >= 0)
    ensures |r.black| == |pl.black| && |r.highlight| == |pl.highlight|
    decreases x
  {
    if x <= 0 then pl
    else
      var x' := x - 1;
      var prev := DrawRow(pl, wb, src, roles, y, x');
      assert Offset(wb, x', y) >= 0;
      SetIndex(prev, wb, x', y, Assign(ColorIndexAt(src, x', y), roles))
  }

  /** Drawing one more row extends the rows drawn so far. */
  lemma DrawRowsNext(pl: Planes, wb: int, src: Source, roles: Roles, dx: int, y: nat, before: Planes, after: Planes)
    requires src.Paletted? && |pl.black| == |pl.highlight| && (y == 0 || wb >= 0)
    requires before == DrawRows(pl, wb, src, roles, dx, y)
    requires after == DrawRow(before, wb, src, roles, y, dx)
    ensures after == DrawRows(pl, wb, src, roles, dx, y + 1)
  {
  }

  /** Rows 0 .. y-1, each of dx pixels, written onto pl. */
  function DrawRows(pl: Planes, wb: int, src: Source, roles: Roles, dx: int, y: int): (r: Planes)
    requires src.Paletted? && |pl.black| == |pl.highlight| && (y <= 1 || wb >= 0)
    ensures |r.black| == |pl.black| && |r.highlight| == |pl.highlight|
    decreases y
  {
    if y <= 0 then pl else DrawRow(DrawRows(pl, wb, src, roles, dx, y - 1), wb, src, roles, y - 1, dx)
  }

  /** A row drawn without aliasing: each pixel x < dx of row y shows the role
      its index has (or what was there if it has none), and every byte
      outside row y keeps its colours. */
  lemma {:induction false} DrawRowShows(pl: Planes, wb: int, rect: Rectangle, src: Source, roles: Roles, y: nat, x: int, x': int, y': int)
    requires src.Paletted? && |pl.black| == |pl.highlight| && wb >= 0 && x <= 8 * wb
    requires 0 <= x' && 0 <= y' && In(Point(x', y'), rect) && Offset(wb, x', y') < |pl.black| && x' < 8 * wb
    ensures var r := DrawRow(pl, wb, src, roles, y, x);
      var k := Assign(ColorIndexAt(src, x', y'), roles);
      Decode(r, wb, rect, x', y') ==
        if y' == y && x' < x && 0 <= k then Color(k as uint8) else Decode(pl, wb, rect, x', y')
    decreases x
  {
    if x > 0 {
      var prev := DrawRow(pl, wb, src, roles, y, x - 1);
      DrawRowShows(pl, wb, rect, src, roles, y, x - 1, x', y');
      var k := Assign(ColorIndexAt(src, x - 1, y), roles);
      if y' == y && x' == x - 1 {
        if 0 <= k {
          SetThenDecode(prev, wb, rect, x', y', k);
        } else {
          SetIndexNoOp(prev, wb, x', y', k);
        }
      } else {
        DrawRowStepOther(pl, wb, rect, src, roles, y, x, x', y');
      }
    }
  }

  /** Drawing pixel x - 1 of row y leaves every other pixel's colour alone. */
  lemma DrawRowStepOther(pl: Planes, wb: int, rect: Rectangle, src: Source, roles: Roles, y: nat, x: int, x': int, y': int)
    requires src.Paletted? && |pl.black| == |pl.highlight| && wb >= 0 && 0 < x <= 8 * wb
    requires 0 <= x' < 8 * wb && 0 <= y' && In(Point(x', y'), rect) && Offset(wb, x', y') < |pl.black|
    requires x' != x - 1 || y' != y
    ensures Decode(DrawRow(pl, wb, src, roles, y, x), wb, rect, x', y') == Decode(DrawRow(pl, wb, src, roles, y, x - 1), wb, rect, x', y')
  {
    var prev := DrawRow(pl, wb, src, roles, y, x - 1);
    var k := Assign(ColorIndexAt(src, x - 1, y), roles);
    assert DrawRow(pl, wb, src, roles, y, x) == SetIndex(prev, wb, x - 1, y, k);
    RowBytesDiffer(wb, x - 1, y, x', y');
    SetThenDecodeOther(prev, wb, rect, x - 1, y, k, x', y');
  }

  /** Two different pixels whose columns are below 8 * wb live in different
      bytes or different columns of a byte. */
  lemma RowBytesDiffer(wb: int, x: int, y: int, x': int, y': int)
    requires wb >= 0 && 0 <= x < 8 * wb && 0 <= x' < 8 * wb && 0 <= y && 0 <= y'
    requires x != x' || y != y'
    ensures Offset(wb, x, y) != Offset(wb, x', y') || x % 8 != x' % 8
  {
    var q, q' := Div8(x), Div8(x');
    assert q < wb && q' < wb;
    if y < y' {
      RowsApart(wb, y, y');
    } else if y' < y {
      RowsApart(wb, y', y);
    } else {
      Div8Nonneg(x);
      Div8Nonneg(x');
    }
  }

  /** A later row starts at least a full row width further on. */
  lemma {:induction false} RowsApart(wb: int, y: int, y': int)
    requires wb >= 0 && 0 <= y < y'
    ensures y' * wb >= y * wb + wb
    decreases y' - y
  {
    assert y' * wb == (y' - 1) * wb + wb;
    if y + 1 < y' {
      RowsApart(wb, y, y' - 1);
    }
  }



  /** After all rows are drawn, each pixel inside the drawn bounds shows the
      role of its palette index (or keeps its colour if the index has no
      role); the rows must fit the image's row width, so that no two pixels
      share a bit. */
  lemma {:induction false} DrawRowsShows(pl: Planes, wb: int, rect: Rectangle, src: Source, roles: Roles, dx: int, y: int, x': int, y': int)
    requires src.Paletted? && |pl.black| == |pl.highlight| && wb >= 0 && dx <= 8 * wb
    requires 0 <= x' && 0 <= y' && In(Point(x', y'), rect) && Offset(wb, x', y') < |pl.black| && x' < 8 * wb
    ensures var r := DrawRows(pl, wb, src, roles, dx, y);
      var k := Assign(ColorIndexAt(src, x', y'), roles);
      Decode(r, wb, rect, x', y') ==
        if y' < y && x' < dx && 0 <= k then Color(k as uint8) else Decode(pl, wb, rect, x', y')
    decreases y
  {
    if y > 0 {
      var prev := DrawRows(pl, wb, src, roles, dx, y - 1);
      DrawRowsShows(pl, wb, rect, src, roles, dx, y - 1, x', y');
      RowsStep(pl, prev, wb, rect, src, roles, dx, y, x', y');
    }
  }

  /** Row y - 1 drawn over planes that show rows 0 .. y - 2 shows rows
      0 .. y - 1. */
  lemma RowsStep(pl: Planes, prev: Planes, wb: int, rect: Rectangle, src: Source, roles: Roles, dx: int, y: int, x': int, y': int)
    requires src.Paletted? && |pl.black| == |pl.highlight| && wb >= 0 && dx <= 8 * wb && y > 0
    requires |prev.black| == |pl.black| && |prev.highlight| == |pl.highlight|
    requires 0 <= x' && 0 <= y' && In(Point(x', y'), rect) && Offset(wb, x', y') < |pl.black| && x' < 8 * wb
    requires var k := Assign(ColorIndexAt(src, x', y'), roles);
      Decode(prev, wb, rect, x', y') ==
        if y' < y - 1 && x' < dx && 0 <= k then Color(k as uint8) else Decode(pl, wb, rect, x', y')
    ensures var k := Assign(ColorIndexAt(src, x', y'), roles);
      Decode(DrawRow(prev, wb, src, roles, y - 1, dx), wb, rect, x', y') ==
        if y' < y && x' < dx && 0 <= k then Color(k as uint8) else Decode(pl, wb, rect, x', y')
  {
    DrawRowShows(prev, wb, rect, src, roles, y - 1, dx, x', y');
    var k := Assign(ColorIndexAt(src, x', y'), roles);
    RowsThrough(Decode(DrawRow(prev, wb, src, roles, y - 1, dx), wb, rect, x', y'), Decode(prev, wb, rect, x', y'),
      Decode(pl, wb, rect, x', y'), y' < y - 1, y' == y - 1, y' < y, x' < dx && 0 <= k, if 0 <= k < 256 then Color(k as uint8) else White);
  }

  /** The colour after a step, from the colours before it. */
  lemma RowsThrough(now: Color, prev: Color, orig: Color, before: bool, at: bool, upto: bool, drawn: bool, shown: Color)
    requires upto == (before || at) && !(before && at)
    requires prev == if before && drawn then shown else orig
    requires now == if at && drawn then shown else prev
    ensures now == if upto && drawn then shown else orig
  {
  }

  /** Drawing keeps every highlight bit within the black plane. */
  lemma {:induction false} DrawRowConsistent(pl: Planes, wb: int, src: Source, roles: Roles, y: nat, x: int)
    requires src.Paletted? && Consistent(pl) && (y == 0 || wb >= 0)
    ensures Consistent(DrawRow(pl, wb, src, roles, y, x))
    decreases x
  {
    if x > 0 {
      var prev := DrawRow(pl, wb, src, roles, y, x - 1);
      DrawRowConsistent(pl, wb, src, roles, y, x - 1);
      SetIndexConsistent(prev, wb, x - 1, y, Assign(ColorIndexAt(src, x - 1, y), roles));
    }
  }

  lemma {:induction false} DrawRowsConsistent(pl: Planes, wb: int, src: Source, roles: Roles, dx: int, y: int)
    requires src.Paletted? && Consistent(pl) && (y <= 1 || wb >= 0)
    ensures Consistent(DrawRows(pl, wb, src, roles, dx, y))
    decreases y
  {
    if y > 0 {
      DrawRowsConsistent(pl, wb, src, roles, dx, y - 1);
      DrawRowConsistent(DrawRows(pl, wb, src, roles, dx, y - 1), wb, src, roles, y - 1, dx);
    }
  }

  // ---------------------------------------------------------------------
  // The Image itself.

  class Image {
    /** Black plane: 1 is white, 0 is black. */
    var black: array<byte>
    /** Highlight plane: 1 is highlight. */
    var highlight: array<byte>
    const rect: Rectangle
    const rectWidthBytes: int

    /** The two planes are distinct arrays of one length, and every
        highlight bit is also set in the black plane. */
    ghost predicate Valid()
      reads this, black, highlight
    {
      black.Length == highlight.Length && black != highlight && Consistent(Contents())
    }

    function Contents(): Planes
      reads this, black, highlight
    {
      Planes(black[..], highlight[..])
    }

    /** NewImage: both planes ceil(Dx / 8) * Dy bytes, all white. A negative
        size panics in Go (bytes.Repeat, make). */
    constructor (r: Rectangle)
      requires r.Dy() * WidthBytes(r.Dx()) >= 0
      ensures Valid() && fresh(black) && fresh(highlight)
      ensures rect == r && rectWidthBytes == WidthBytes(r.Dx())
      ensures Contents() == Blank(r.Dy() * WidthBytes(r.Dx()))
    {
      var wb := WidthBytes(r.Dx());
      var n := r.Dy() * wb;
      black := new byte[n](_ => 0xFF);
      highlight := new byte[n](_ => 0x00);
      rect := r;
      rectWidthBytes := wb;
      new;
      assert black[..] == Repeat(0xFF, n);
      assert highlight[..] == Repeat(0x00, n);
      BlankIsWhite(n, 0, Rect(Point(0, 0), Point(0, 0)), 0, 0);
    }

    /** SetColorIndex: writes the bit pair of pixel (x, y); a byte past the
        end of the plane, or an index other than 0, 1, 2, changes nothing. */
    method SetColorIndex(x: int, y: int, index: uint8)
      requires Valid() && Offset(rectWidthBytes, x, y) >= 0
      modifies black, highlight
      ensures Valid()
      ensures Contents() == SetIndex(old(Contents()), rectWidthBytes, x, y, index as int)
    {
      var px := Div8(x) + y * rectWidthBytes;
      assert px == Offset(rectWidthBytes, x, y);
      if px >= black.Length {
        return;
      }
      SetIndexConsistent(Contents(), rectWidthBytes, x, y, index as int);
      var bit := Mask(x);
      var nb, nh := PaintPair(black[px], highlight[px], bit, index as int);
      black[px] := nb;
      highlight[px] := nh;
    }

    /** Set: as SetColorIndex, with a foreign colour first converted to the
        nearest of White, Black and Highlight. */
    method Set(x: int, y: int, c: ColorValue)
      requires Valid() && Offset(rectWidthBytes, x, y) >= 0
      modifies black, highlight
      ensures Valid()
      ensures Contents() == SetIndex(old(Contents()), rectWidthBytes, x, y, ColorOf(c).c as int)
    {
      var px := Div8(x) + y * rectWidthBytes;
      assert px == Offset(rectWidthBytes, x, y);
      if px >= black.Length {
        return;
      }
      var cc := match c case Native(native) => native case Foreign(rgba) => Model(rgba);
      SetIndexConsistent(Contents(), rectWidthBytes, x, y, cc.c as int);
      var bit := Mask(x);
      var nb, nh := PaintPair(black[px], highlight[px], bit, cc.c as int);
      black[px] := nb;
      highlight[px] := nh;
    }

    /** At as written: rows are addressed with the panel's DisplayWidthBytes
        (110), not with the image's own row width; an in-bounds pixel whose
        byte is outside the planes panics in Go. */
    function AtAsWritten(x: int, y: int): (c: Color)
      reads this, black, highlight
      requires Valid()
      requires In(Point(x, y), rect) ==> 0 <= Offset(110, x, y) < black.Length
      ensures !In(Point(x, y), rect) ==> c == White
      ensures c == White || c == Black || c == Highlight
      ensures rectWidthBytes == 110 ==> c == At(x, y)
    {
      Decode(Contents(), 110, rect, x, y)
    }

    /** At, addressing rows with the image's own width as Set does. */
    function At(x: int, y: int): (c: Color)
      reads this, black, highlight
      requires Valid()
      requires In(Point(x, y), rect) ==> 0 <= Offset(rectWidthBytes, x, y) < black.Length
      ensures !In(Point(x, y), rect) ==> c == White
      ensures c == White || c == Black || c == Highlight
    {
      Decode(Contents(), rectWidthBytes, rect, x, y)
    }

    /** Reset: fresh planes of the same lengths, all white. */
    method Reset()
      requires Valid()
      modifies this
      ensures Valid() && fresh(black) && fresh(highlight)
      ensures Contents() == Blank(old(black.Length))
    {
      black := new byte[black.Length](_ => 0xFF);
      highlight := new byte[highlight.Length](_ => 0x00);
      assert black[..] == Repeat(0xFF, black.Length);
      assert highlight[..] == Repeat(0x00, highlight.Length);
      BlankIsWhite(black.Length, 0, Rect(Point(0, 0), Point(0, 0)), 0, 0);
    }

    /** One pixel of drawExactColors: the role of the pixel's palette index,
        or nothing when the index has no role. */
    method DrawPixel(src: Source, white: int, blk: int, hl: int, x: int, y: int)
      requires Valid() && src.Paletted? && Offset(rectWidthBytes, x, y) >= 0
      modifies black, highlight
      ensures Valid()
      ensures Contents() == SetIndex(old(Contents()), rectWidthBytes, x, y, Assign(ColorIndexAt(src, x, y), Roles(white, blk, hl)))
    {
      var k := ColorIndexAt(src, x, y);
      if k == white {
        SetColorIndex(x, y, 0);
      } else if k == blk {
        SetColorIndex(x, y, 1);
      } else if k == hl {
        SetColorIndex(x, y, 2);
      } else {
        SetIndexNoOp(Contents(), rectWidthBytes, x, y, -1);
      }
    }

    /** The inner loop of drawExactColors: pixels 0 to dx - 1 of row y. */
    method DrawRowPixels(src: Source, white: int, blk: int, hl: int, y: nat, dx: nat)
      requires Valid() && src.Paletted? && (y == 0 || rectWidthBytes >= 0)
      modifies black, highlight
      ensures Valid()
      ensures Contents() == DrawRow(old(Contents()), rectWidthBytes, src, Roles(white, blk, hl), y, dx)
    {
      ghost var row := Contents();
      var x := 0;
      while x < dx
        invariant Valid() && 0 <= x <= dx
        invariant Contents() == DrawRow(row, rectWidthBytes, src, Roles(white, blk, hl), y, x)
      {
        DrawPixel(src, white, blk, hl, x, y);
        x := x + 1;
      }
    }

    /** The outer loop of drawExactColors: rows 0 to dy - 1, each drawn with
        the given roles. */
    method DrawRowsPixels(src: Source, white: int, blk: int, hl: int, dx: nat, dy: nat)
      requires Valid() && src.Paletted? && (dy <= 1 || rectWidthBytes >= 0)
      modifies black, highlight
      ensures Valid()
      ensures Contents() == DrawRows(old(Contents()), rectWidthBytes, src, Roles(white, blk, hl), dx, dy)
    {
      ghost var start := Contents();
      var y := 0;
      while y < dy
        invariant Valid() && 0 <= y <= dy
        invariant |start.black| == |start.highlight| == black.Length
        invariant Contents() == DrawRows(start, rectWidthBytes, src, Roles(white, blk, hl), dx, y)
      {
        ghost var before := Contents();
        DrawRowPixels(src, white, blk, hl, y, dx);
        DrawRowsNext(start, rectWidthBytes, src, Roles(white, blk, hl), dx, y, before, Contents());
        y := y + 1;
      }
    }

    /** drawExactColors over a dx by dy area starting at the origin (the
        panel's bounds, 880 by 528, in the driver): every pixel of the area,
        row by row, gets the role its palette index has. A negative byte
        index panics in Go, which the requires on the row width excludes. */
    method DrawExactColors(src: Source, dx: nat, dy: nat)
      requires Valid() && src.Paletted? && |src.palette| >= 3
      requires dy <= 1 || rectWidthBytes >= 0
      modifies black, highlight
      ensures Valid()
      ensures Contents() == DrawRows(old(Contents()), rectWidthBytes, src, RolesOf(src.palette), dx, dy)
    {
      var white, blk, hl := ExactColorIndex(src.palette);
      DrawRowsPixels(src, white, blk, hl, dx, dy);
    }
  }

  /** Encode, exact-palette path: a NewImage of the picture's bounds, drawn
      with drawExactColors over the panel's dx by dy pixels, then both
      planes written out. Any other picture goes through draw.Draw, which is
      not part of this model. */
  method Encode(img: Source, dx: nat, dy: nat) returns (dstBlack: seq<byte>, dstRed: seq<byte>)
    requires img.Paletted? && |img.palette| == 3
    requires img.rect.Dy() * WidthBytes(img.rect.Dx()) >= 0
    requires dy <= 1 || WidthBytes(img.rect.Dx()) >= 0
    ensures var n := img.rect.Dy() * WidthBytes(img.rect.Dx());
      Planes(dstBlack, dstRed) == DrawRows(Blank(n), WidthBytes(img.rect.Dx()), img, RolesOf(img.palette), dx, dy)
    ensures Consistent(Planes(dstBlack, dstRed))
  {
    var dst := new Image(img.rect);
    dst.DrawExactColors(img, dx, dy);
    dstBlack, dstRed := dst.black[..], dst.highlight[..];
  }
}
