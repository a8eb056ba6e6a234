// image.Rectangle and its overlap measure (internal/person/engine.go,
// internal/web/person_track.go). Ratios are exact reals.
module Geometry {

  datatype Rect = Rect(minX: int, minY: int, maxX: int, maxY: int)
  {
    predicate Empty() {
      minX >= maxX || minY >= maxY
    }

    function Dx(): int { maxX - minX }

    function Dy(): int { maxY - minY }

    function Intersect(other: Rect): Rect {
      var r := Rect(Max(minX, other.minX), Max(minY, other.minY), Min(maxX, other.maxX), Min(maxY, other.maxY));
      if r.Empty() then Rect(0, 0, 0, 0) else r
    }
  }

  function Max(a: int, b: int): int { if a < b then b else a }

  function Min(a: int, b: int): int { if a < b then a else b }

  function IoU(a: Rect, b: Rect): real {
    var i := a.Intersect(b);
    if i.Empty() then 0.0
    else
      var shared := i.Dx() * i.Dy();
      var union := a.Dx() * a.Dy() + b.Dx() * b.Dy() - shared;
      if union <= 0 then 0.0 else shared as real / union as real
  }

  lemma ProductMonotone(a: int, b: int, c: int, d: int)
    requires 0 <= a <= c && 0 <= b <= d
    ensures a * b <= c * d
  {
    assert a * b <= c * b;
    assert c * b <= c * d;
  }

  lemma FractionOfWhole(part: int, whole: int)
    requires 0 <= part <= whole && whole > 0
    ensures 0.0 <= part as real / whole as real <= 1.0
  {
  }

  // For all rectangles, also malformed ones: symmetric and between 0 and 1.
  lemma IoUBounds(a: Rect, b: Rect)
    ensures IoU(a, b) == IoU(b, a)
    ensures 0.0 <= IoU(a, b) <= 1.0
  {
    var i := a.Intersect(b);
    assert i == b.Intersect(a);
    if !i.Empty() {
      var shared := i.Dx() * i.Dy();
      ProductMonotone(i.Dx(), i.Dy(), a.Dx(), a.Dy());
      ProductMonotone(i.Dx(), i.Dy(), b.Dx(), b.Dy());
      ProductMonotone(1, 1, i.Dx(), i.Dy());
      FractionOfWhole(shared, a.Dx() * a.Dy() + b.Dx() * b.Dy() - shared);
    }
  }

  // A rectangle overlaps itself fully unless it is empty.
  lemma IoUSelf(a: Rect)
    ensures IoU(a, a) == if a.Empty() then 0.0 else 1.0
  {
    if !a.Empty() {
      assert a.Intersect(a) == a;
      ProductMonotone(1, 1, a.Dx(), a.Dy());
      var area := a.Dx() * a.Dy();
      assert area as real / area as real == 1.0;
    }
  }

  // ---- Overlap counted in pixels ----

  datatype Pixel = Pixel(x: int, y: int)

  ghost function Column(x: int, y0: int, y1: int): set<Pixel> {
    set y: int | y0 <= y < y1 :: Pixel(x, y)
  }

  // The pixels of a rectangle.
  ghost function Pixels(r: Rect): set<Pixel> {
    set x: int, y: int | r.minX <= x < r.maxX && r.minY <= y < r.maxY :: Pixel(x, y)
  }

  lemma {:induction false} ColumnCount(x: int, y0: int, y1: int)
    requires y0 <= y1
    ensures |Column(x, y0, y1)| == y1 - y0
    decreases y1 - y0
  {
    if y0 < y1 {
      ColumnCount(x, y0, y1 - 1);
      assert Column(x, y0, y1) == Column(x, y0, y1 - 1) + {Pixel(x, y1 - 1)};
    } else {
      assert Column(x, y0, y1) == {};
    }
  }

  lemma LastColumn(r: Rect)
    requires r.minX < r.maxX
    ensures var rest, column := Pixels(r.(maxX := r.maxX - 1)), Column(r.maxX - 1, r.minY, r.maxY);
            Pixels(r) == rest + column && rest !! column
  {
  }

  lemma OneMoreTime(w: int, h: int)
    ensures w * h == (w - 1) * h + h
  {
  }

  lemma {:induction false} PixelCount(r: Rect)
    requires r.minX <= r.maxX && r.minY <= r.maxY
    ensures |Pixels(r)| == r.Dx() * r.Dy()
    decreases r.maxX - r.minX
  {
    if r.minX < r.maxX {
      PixelCount(r.(maxX := r.maxX - 1));
      ColumnCount(r.maxX - 1, r.minY, r.maxY);
      LastColumn(r);
      OneMoreTime(r.Dx(), r.Dy());
    } else {
      assert Pixels(r) == {};
    }
  }

  lemma SharedPixels(a: Rect, b: Rect)
    ensures Pixels(a.Intersect(b)) == Pixels(a) * Pixels(b)
    ensures a.Intersect(b).Empty() <==> Pixels(a) * Pixels(b) == {}
  {
    var i := a.Intersect(b);
    if !i.Empty() {
      assert Pixel(i.minX, i.minY) in Pixels(i);
    }
  }

  // The overlap is the share of the pixels of either rectangle that are in both.
  lemma OverlapIsShare(a: Rect, b: Rect)
    ensures var both, either := Pixels(a) * Pixels(b), Pixels(a) + Pixels(b);
            IoU(a, b) == if both == {} then 0.0 else |both| as real / |either| as real
  {
    SharedPixels(a, b);
    var i := a.Intersect(b);
    if !i.Empty() {
      PixelCount(i);
      PixelCount(a);
      PixelCount(b);
      assert |Pixels(a) + Pixels(b)| == |Pixels(a)| + |Pixels(b)| - |Pixels(a) * Pixels(b)|;
    }
  }
}
