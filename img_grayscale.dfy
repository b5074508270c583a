/** internal/img/grayscale.go: the GrayToolkit value type, a second copy of
    the grayscale fill loop. */
module Img {
  import opened Raster

  /** GrayToolkit: holds the source image; no method reassigns it. */
  class GrayToolkit {
    const image: Picture

    /** NewGrayToolkit: stores the image as given. */
    constructor (image: Picture)
      ensures this.image == image
    {
      this.image := image;
    }

    /** AddEffect: a fresh gray buffer with the image's bounds, every point
        of the bounds set, row by row, from the image's colour at the same
        point; `visited` is the order in which the loops reach the points. */
    method AddEffect(model: GrayModel) returns (gray: GrayImage, ghost visited: seq<Point>)
      ensures fresh(gray) && fresh(gray.pix) && gray.Valid()
      ensures gray.rect == image.bounds
      ensures forall x, y :: image.bounds.Contains(x, y) ==> gray.At(x, y) == model(image.At(x, y))
      ensures visited == Scan(image.bounds, image.bounds.max.y)
    {
      var b := image.bounds;
      gray := new GrayImage(b);
      visited := [];
      var y := b.min.y;
      while y < b.max.y
        invariant b.min.y <= y <= b.max.y
        invariant forall u, v :: b.min.x <= u < b.max.x && b.min.y <= v < y ==>
                    gray.At(u, v) == model(image.At(u, v))
        invariant visited == Scan(b, y)
      {
        var x := b.min.x;
        while x < b.max.x
          invariant b.min.x <= x <= b.max.x
          invariant forall u, v :: b.min.x <= u < b.max.x && b.min.y <= v < y ==>
                      gray.At(u, v) == model(image.At(u, v))
          invariant forall u :: b.min.x <= u < x ==> gray.At(u, y) == model(image.At(u, y))
          invariant visited == Scan(b, y) + Row(y, b.min.x, x)
        {
          gray.Set(x, y, image.At(x, y), model);
          visited := visited + [Point(x, y)];
          x := x + 1;
        }
        y := y + 1;
      }
    }
  }

  /** An image with empty bounds gets no samples written: the result is
      the all-black buffer with those same bounds, and the loops visit no
      point. */
  method AddEffectOnEmpty(t: GrayToolkit, model: GrayModel) returns (gray: GrayImage, ghost visited: seq<Point>)
    requires t.image.bounds.Empty()
    ensures gray.Valid() && gray.rect == t.image.bounds
    ensures gray.pix.Length0 == 0 || gray.pix.Length1 == 0
    ensures forall x, y :: gray.At(x, y) == 0
    ensures visited == []
  {
    gray, visited := t.AddEffect(model);
    EmptyScan(t.image.bounds, t.image.bounds.max.y);
  }

  /** Repeated calls agree: equal bounds and equal samples everywhere, and
      equal input colours give equal samples. */
  method AddEffectTwice(t: GrayToolkit, model: GrayModel) returns (first: GrayImage, second: GrayImage)
    ensures first != second && first.Valid() && second.Valid()
    ensures first.rect == second.rect == t.image.bounds
    ensures forall x, y :: first.At(x, y) == second.At(x, y)
    ensures forall x1, y1, x2, y2 ::
              (t.image.bounds.Contains(x1, y1) && t.image.bounds.Contains(x2, y2) &&
               t.image.At(x1, y1) == t.image.At(x2, y2)) ==> first.At(x1, y1) == first.At(x2, y2)
  {
    ghost var order;
    first, order := t.AddEffect(model);
    second, order := t.AddEffect(model);
  }
}
