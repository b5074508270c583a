/** The pieces of Go's `image` and `image/color` packages that the grayscale
    toolkits use: points, rectangles, colours, a decoded picture read through
    `Bounds` and `At`, and the `*image.Gray` buffer built by `image.NewGray`
    and written by `Set`. The colour-to-luminance conversion that `Set`
    applies (Go's gray colour model) is a parameter, never interpreted. */
module Raster {

  newtype uint8 = x: int | 0 <= x < 0x100
  newtype uint16 = x: int | 0 <= x < 0x1_0000

  datatype Point = Point(x: int, y: int)

  /** image.Rectangle: the half-open box [Min.X, Max.X) x [Min.Y, Max.Y). */
  datatype Rectangle = Rectangle(min: Point, max: Point) {
    /** Go calls a rectangle well-formed when Min <= Max on both axes. */
    predicate WellFormed() { min.x <= max.x && min.y <= max.y }
    function Dx(): int { max.x - min.x }
    function Dy(): int { max.y - min.y }
    /** image.Rectangle.Empty */
    predicate Empty() { min.x >= max.x || min.y >= max.y }
    /** image.Point.In: the point lies inside the half-open box. */
    predicate Contains(x: int, y: int) { min.x <= x < max.x && min.y <= y < max.y }
  }

  /** The bounds of a decoded image: decoders only produce well-formed
      rectangles, and image.NewGray panics on any other. */
  type Bounds = r: Rectangle | r.WellFormed() witness Rectangle(Point(0, 0), Point(0, 0))

  /** A colour as its alpha-premultiplied 16-bit RGBA channels. */
  datatype Color = RGBA(r: uint16, g: uint16, b: uint16, a: uint16)

  /** One 8-bit luminance sample (color.Gray). */
  type Gray = uint8

  /** The gray colour model `Set` applies; left uninterpreted. */
  type GrayModel = Color -> Gray

  /** A decoded, read-only image.Image: its bounds and its colour at each
      point. What At gives outside the bounds depends on the concrete image
      type, so it is left open; the toolkits only read inside. */
  datatype Picture = Picture(bounds: Bounds, colorAt: (int, int) -> Color) {
    function At(x: int, y: int): Color
    {
      colorAt(x, y)
    }
  }

  /** *image.Gray: one luminance byte per point of `rect`, the sample of
      (x, y) stored at pix[y - Min.Y, x - Min.X]. */
  class GrayImage {
    const rect: Bounds
    const pix: array2<Gray>

    ghost predicate Valid()
    {
      pix.Length0 == rect.Dy() && pix.Length1 == rect.Dx()
    }

    /** image.NewGray: a zeroed buffer with exactly the bounds `r`. */
    constructor (r: Bounds)
      ensures rect == r && Valid() && fresh(pix)
      ensures forall x, y :: At(x, y) == 0
    {
      rect := r;
      pix := new Gray[r.Dy(), r.Dx()]((_, _) => 0);
    }

    /** (*image.Gray).At: the stored sample inside the bounds, black outside. */
    function At(x: int, y: int): Gray
      requires Valid()
      reads pix
    {
      if rect.Contains(x, y) then pix[y - rect.min.y, x - rect.min.x] else 0
    }

    /** (*image.Gray).Set: stores the converted colour at (x, y) when the
        point is inside the bounds and does nothing otherwise. */
    method Set(x: int, y: int, c: Color, model: GrayModel)
      requires Valid()
      modifies pix
      ensures forall u, v :: At(u, v) ==
                (if u == x && v == y && rect.Contains(x, y) then model(c) else old(At(u, v)))
    {
      if rect.Contains(x, y) {
        pix[y - rect.min.y, x - rect.min.x] := model(c);
      }
    }
  }

  /** The order in which the toolkits' nested loops visit the points of `b`:
      row after row from Min.Y, each row from Min.X; `Scan(b, y)` is the
      part that covers the rows above `y`. */
  function Scan(b: Bounds, y: int): seq<Point>
    decreases y - b.min.y
  {
    if y <= b.min.y then [] else Scan(b, y - 1) + Row(y - 1, b.min.x, b.max.x)
  }

  /** The points (lo, y), (lo + 1, y), ..., (hi - 1, y). */
  function Row(y: int, lo: int, hi: int): seq<Point>
    decreases hi - lo
  {
    if hi <= lo then [] else Row(y, lo, hi - 1) + [Point(hi - 1, y)]
  }

  /** Row-major order: earlier rows first, then smaller x. */
  predicate Before(p: Point, q: Point)
  {
    p.y < q.y || (p.y == q.y && p.x < q.x)
  }

  lemma {:induction false} RowIsOrdered(y: int, lo: int, hi: int)
    ensures forall p :: p in Row(y, lo, hi) <==> p.y == y && lo <= p.x < hi
    ensures forall i, j :: 0 <= i < j < |Row(y, lo, hi)| ==> Before(Row(y, lo, hi)[i], Row(y, lo, hi)[j])
    decreases hi - lo
  {
    if lo < hi {
      RowIsOrdered(y, lo, hi - 1);
    }
  }

  /** The nested loops visit exactly the points inside `b`, each once, in
      row-major order. */
  lemma {:induction false} ScanIsOrdered(b: Bounds, y: int)
    requires b.min.y <= y
    ensures forall p :: p in Scan(b, y) <==> b.min.x <= p.x < b.max.x && b.min.y <= p.y < y
    ensures forall i, j :: 0 <= i < j < |Scan(b, y)| ==> Before(Scan(b, y)[i], Scan(b, y)[j])
    decreases y - b.min.y
  {
    if b.min.y < y {
      ScanIsOrdered(b, y - 1);
      RowIsOrdered(y - 1, b.min.x, b.max.x);
    }
  }

  /** Empty bounds give an empty scan: no point is visited, so `Set` is
      never called (the outer loop may still step through the rows when
      only the width is zero). */
  lemma {:induction false} EmptyScan(b: Bounds, y: int)
    requires b.Empty() && y <= b.max.y
    ensures Scan(b, y) == []
    decreases y - b.min.y
  {
    if b.min.y < y {
      EmptyScan(b, y - 1);
      assert Row(y - 1, b.min.x, b.max.x) == [];
    }
  }

  /** Ordered sequences have no repeated point: no point is visited twice. */
  lemma ScanVisitsOnce(b: Bounds)
    ensures forall i, j :: 0 <= i < j < |Scan(b, b.max.y)| ==> Scan(b, b.max.y)[i] != Scan(b, b.max.y)[j]
    ensures forall x, y :: Point(x, y) in Scan(b, b.max.y) <==> b.Contains(x, y)
  {
    ScanIsOrdered(b, b.max.y);
  }
}
