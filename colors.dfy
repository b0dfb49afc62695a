/** The parts of Go's image and image/color packages the driver relies on:
    16-bit RGBA values, the palette distance and nearest-entry lookup
    (color.Palette.Index), points, rectangles and the two kinds of source
    image the encoders distinguish (a paletted image, any other image). */
module Colors {
  import opened Bytes

  /** The result of Color.RGBA(): four channels in [0, 0xffff]. */
  datatype RGBA = RGBA(r: int, g: int, b: int, a: int)

  /** color.White, color.Black and color.RGBA{255, 0, 0, 255}. */
  const WhiteRGBA := RGBA(0xffff, 0xffff, 0xffff, 0xffff)
  const BlackRGBA := RGBA(0, 0, 0, 0xffff)
  const RedRGBA := RGBA(0xffff, 0, 0, 0xffff)

  /** Go's sqDiff: (d * d) >> 2. For 16-bit channels the uint32 arithmetic
      never wraps, so this is the exact integer value. */
  function SqDiff(x: int, y: int): (s: int)
    ensures s >= 0
  {
    var d := if x >= y then x - y else y - x;
    d * d / 4
  }

  /** The palette metric: the sum of the four channel sqDiffs. */
  function Distance(c: RGBA, d: RGBA): (s: int)
    ensures s >= 0
  {
    SqDiff(c.r, d.r) + SqDiff(c.g, d.g) + SqDiff(c.b, d.b) + SqDiff(c.a, d.a)
  }

  /** The metric is symmetric. */
  lemma DistanceSymmetric(c: RGBA, d: RGBA)
    ensures Distance(c, d) == Distance(d, c)
  {
  }

  /** color.Palette.Index: the first index of minimal distance to c (0 for
      an empty palette). The loop in Go keeps the first strictly smaller sum
      and returns early on 0, which selects the same entry; IndexMinimal
      states that this is the first entry of minimal distance. */
  function Index(p: seq<RGBA>, c: RGBA): (i: nat)
    ensures |p| == 0 ==> i == 0
    ensures |p| > 0 ==> i < |p|
    decreases |p|
  {
    if |p| <= 1 then 0
    else
      var k := Index(p[..|p| - 1], c);
      if Distance(c, p[|p| - 1]) < Distance(c, p[k]) then |p| - 1 else k
  }

  /** The entry Index picks is at minimal distance from c, and every entry
      before it is strictly farther. */
  lemma {:induction false} IndexMinimal(p: seq<RGBA>, c: RGBA)
    requires |p| > 0
    ensures forall j :: 0 <= j < |p| ==> Distance(c, p[Index(p, c)]) <= Distance(c, p[j])
    ensures forall j :: 0 <= j < Index(p, c) ==> Distance(c, p[j]) > Distance(c, p[Index(p, c)])
    decreases |p|
  {
    if |p| > 1 {
      var q := p[..|p| - 1];
      IndexMinimal(q, c);
      assert forall j :: 0 <= j < |q| ==> q[j] == p[j];
    }
  }

  /** The first index of minimal distance is unique: any index that is minimal
      and beats every earlier entry is the one Index returns. */
  lemma IndexUnique(p: seq<RGBA>, c: RGBA, i: nat)
    requires i < |p|
    requires forall j :: 0 <= j < |p| ==> Distance(c, p[i]) <= Distance(c, p[j])
    requires forall j :: 0 <= j < i ==> Distance(c, p[j]) > Distance(c, p[i])
    ensures Index(p, c) == i
  {
    IndexMinimal(p, c);
    var k := Index(p, c);
    assert Distance(c, p[k]) <= Distance(c, p[i]);
  }

  /** Entries that Index can tell apart: every two are at a positive distance. */
  predicate Distinguishable(p: seq<RGBA>)
  {
    forall i, j :: 0 <= i < j < |p| ==> Distance(p[i], p[j]) > 0
  }

  /** Looking up an entry of a distinguishable palette finds that entry. */
  lemma IndexOfEntry(p: seq<RGBA>, j: nat)
    requires j < |p| && Distinguishable(p)
    ensures Index(p, p[j]) == j
  {
    forall k | 0 <= k < |p| && k != j ensures Distance(p[j], p[k]) > 0 {
      DistanceSymmetric(p[j], p[k]);
    }
    IndexUnique(p, p[j], j);
  }

  datatype Point = Point(x: int, y: int)

  /** image.Rectangle: Min is inclusive, Max exclusive. */
  datatype Rectangle = Rect(min: Point, max: Point)
  {
    function Dx(): int { max.x - min.x }
    function Dy(): int { max.y - min.y }
  }

  /** image.Point.In. */
  predicate In(p: Point, r: Rectangle)
  {
    r.min.x <= p.x < r.max.x && r.min.y <= p.y < r.max.y
  }

  /** An image as the encoders see it: an *image.Paletted (bounds, palette and
      the palette index of each pixel) or any other image.Image (bounds and the
      RGBA value of each pixel). */
  datatype Source =
    | Paletted(rect: Rectangle, palette: seq<RGBA>, pix: (int, int) -> uint8)
    | Picture(rect: Rectangle, colour: (int, int) -> RGBA)

  /** A paletted image whose in-bounds pixel indices all name a palette entry;
      Paletted.At panics on any other index. */
  ghost predicate WellFormed(s: Source)
  {
    s.Paletted? ==> forall x, y :: In(Point(x, y), s.rect) ==> (s.pix(x, y) as int) < |s.palette|
  }

  /** image.Paletted.ColorIndexAt: the stored index, or 0 outside the bounds. */
  function ColorIndexAt(s: Source, x: int, y: int): (k: int)
    requires s.Paletted?
    ensures 0 <= k < 256
    ensures !In(Point(x, y), s.rect) ==> k == 0
  {
    if In(Point(x, y), s.rect) then s.pix(x, y) as int else 0
  }

  /** image.Image.At for an in-bounds pixel. */
  function At(s: Source, x: int, y: int): RGBA
    requires WellFormed(s) && In(Point(x, y), s.rect)
  {
    match s
    case Paletted(_, palette, pix) => palette[pix(x, y)]
    case Picture(_, colour) => colour(x, y)
  }
}
