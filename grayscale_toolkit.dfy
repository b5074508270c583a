/** internal/grayscale/toolkit.go: a toolkit that holds a decoded image and
    turns it into a fresh grayscale image with the same bounds. */
module GrayscaleToolkit {
  import opened Raster

  /** The `toolkit` struct behind the Toolkit interface. Its image is set
      once, by NewToolkit, and never reassigned. */
  class Toolkit {
    const image: Picture

    /** NewToolkit: stores the image as given. */
    constructor (image: Picture)
      ensures this.image == image
    {
      this.image := image;
    }

    /** AddEffect: allocates a gray buffer with the image's bounds and, row
        by row, sets every point of the bounds from the image's colour at the
        same point. `visited` records the points in the order the loops
        reach them. */
    method AddEffect(model: GrayModel) returns (gray: GrayImage, ghost visited: seq<Point>)
      ensures fresh(gray) && fresh(gray.pix) && gray.Valid()
      ensures gray.rect == image.bounds
      ensures forall x, y :: image.bounds.Contains(x, y) ==> gray.At(x, y) == model(image.At(x, y))
      ensures visited == Scan(image.bounds, image.bounds.max.y)
    {
      var b := image.bounds;
      gray := new GrayImage(b);
      visited := [];
      var y := b.min.y;
      while y < b.max.y
        invariant b.min.y <= y <= b.max.y
        invariant forall u, v :: b.min.x <= u < b.max.x && b.min.y <= v < y ==>
                    gray.At(u, v) == model(image.At(u, v))
        invariant visited == Scan(b, y)
      {
        var x := b.min.x;
        while x < b.max.x
          invariant b.min.x <= x <= b.max.x
          invariant forall u, v :: b.min.x <= u < b.max.x && b.min.y <= v < y ==>
                      gray.At(u, v) == model(image.At(u, v))
          invariant forall u :: b.min.x <= u < x ==> gray.At(u, y) == model(image.At(u, y))
          invariant visited == Scan(b, y) + Row(y, b.min.x, x)
        {
          gray.Set(x, y, image.At(x, y), model);
          visited := visited + [Point(x, y)];
          x := x + 1;
        }
        y := y + 1;
      }
    }
  }

  /** An image with empty bounds has no point visited and `Set` never
      called: the result is the all-black buffer with those same bounds. */
  method AddEffectOnEmpty(t: Toolkit, model: GrayModel) returns (gray: GrayImage, ghost visited: seq<Point>)
    requires t.image.bounds.Empty()
    ensures gray.Valid() && gray.rect == t.image.bounds
    ensures gray.pix.Length0 == 0 || gray.pix.Length1 == 0
    ensures forall x, y :: gray.At(x, y) == 0
    ensures visited == []
  {
    gray, visited := t.AddEffect(model);
    EmptyScan(t.image.bounds, t.image.bounds.max.y);
  }

  /** Calling AddEffect twice on one toolkit gives two distinct images with
      equal bounds and equal samples, and within one result two points with
      the same input colour get the same sample. */
  method AddEffectTwice(t: Toolkit, model: GrayModel) returns (first: GrayImage, second: GrayImage)
    ensures first != second && first.Valid() && second.Valid()
    ensures first.rect == second.rect == t.image.bounds
    ensures forall x, y :: first.At(x, y) == second.At(x, y)
    ensures forall x1, y1, x2, y2 ::
              (t.image.bounds.Contains(x1, y1) && t.image.bounds.Contains(x2, y2) &&
               t.image.At(x1, y1) == t.image.At(x2, y2)) ==> first.At(x1, y1) == first.At(x2, y2)
  {
    ghost var order;
    first, order := t.AddEffect(model);
    second, order := t.AddEffect(model);
  }
}
