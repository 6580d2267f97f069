/**
  The glyph sampler: after the caption has been rasterised into an
  off-screen RGBA buffer the size of the surface, the buffer is walked on a
  6-pixel grid, row by row, and every grid cell whose alpha byte exceeds 128
  becomes a spawn point for a text star.

  The rasteriser itself (font, centring, fillText, getImageData) is not part
  of this model: its output, the byte buffer, is the input here. What is
  kept of getImageData is its failure: it throws on an empty rectangle.
*/
module GlyphSampler {

  import opened Wrappers

  newtype byte = b: int | 0 <= b < 256

  /** Distance between two sampled columns or rows, in pixels. */
  const Gap: nat := 6

  /** A sampled cell is kept when its alpha byte is strictly above this. */
  const AlphaThreshold: int := 128

  datatype Point = Point(x: nat, y: nat)

  /** Offset of the alpha byte of pixel (x, y) in an RGBA buffer `width` pixels wide. */
  function AlphaIndex(width: nat, x: nat, y: nat): nat
  {
    (y * width + x) * 4 + 3
  }

  /**
    Whether pixel (x, y) passes the alpha test. A read past the end of the
    buffer yields `undefined` in the script, and `undefined > 128` is false.
  */
  predicate Opaque(data: seq<byte>, width: nat, x: nat, y: nat)
  {
    AlphaIndex(width, x, y) < |data| && data[AlphaIndex(width, x, y)] as int > AlphaThreshold
  }

  /** The points the inner loop emits in row `y`, from column `x` on. */
  function RowPoints(data: seq<byte>, width: nat, y: nat, x: nat): (r: seq<Point>)
    ensures forall p :: p in r ==> p.y == y && x <= p.x < width && Opaque(data, width, p.x, y)
    decreases width - x
  {
    if x >= width then []
    else (if Opaque(data, width, x, y) then [Point(x, y)] else []) + RowPoints(data, width, y, x + Gap)
  }

  /** The points the outer loop emits from row `y` on. */
  function GridPoints(data: seq<byte>, width: nat, height: nat, y: nat): (r: seq<Point>)
    ensures forall p :: p in r ==> y <= p.y < height && p.x < width && Opaque(data, width, p.x, p.y)
    decreases height - y
  {
    if y >= height then []
    else RowPoints(data, width, y, 0) + GridPoints(data, width, height, y + Gap)
  }

  /** What `getStarTextPoints` returns: nothing when no 2D context could be obtained. */
  function TextPoints(contextAvailable: bool, data: seq<byte>, width: nat, height: nat): (r: seq<Point>)
    ensures forall p :: p in r <==> contextAvailable && Sampled(data, width, height, p)
    ensures RowMajor(r)
  {
    TextPointsExactly(data, width, height);
    TextPointsRowMajor(data, width, height);
    if contextAvailable then GridPoints(data, width, height, 0) else []
  }

  /**
    Whether `getStarTextPoints` throws: once a 2D context exists, reading
    back a rectangle of zero width or zero height raises an IndexSizeError.
  */
  predicate ImageDataThrows(contextAvailable: bool, width: nat, height: nat)
  {
    contextAvailable && (width == 0 || height == 0)
  }

  /** The cells the sampler is meant to emit, stated without reference to the scan. */
  predicate Sampled(data: seq<byte>, width: nat, height: nat, p: Point)
  {
    p.x % Gap == 0 && p.y % Gap == 0 && p.x < width && p.y < height && Opaque(data, width, p.x, p.y)
  }

  /** Row-major order: `p` comes strictly before `q`, row first, then column. */
  predicate Before(p: Point, q: Point)
  {
    p.y < q.y || (p.y == q.y && p.x < q.x)
  }

  predicate RowMajor(s: seq<Point>)
  {
    forall i, j :: 0 <= i < j < |s| ==> Before(s[i], s[j])
  }

  lemma AlphaIndexInBounds(width: nat, height: nat, x: nat, y: nat)
    requires x < width && y < height
    ensures AlphaIndex(width, x, y) < width * height * 4
  {
    assert y * width + x < (y + 1) * width;
    assert (y + 1) * width <= height * width by {
      MulMonotone(y + 1, height, width);
    }
  }

  lemma MulMonotone(a: nat, b: nat, c: nat)
    requires a <= b
    ensures a * c <= b * c
  {
  }

  /**
    `getStarTextPoints`: no points without a 2D context; otherwise the
    rasterised caption is read back and scanned. `None` stands for the
    exception getImageData throws on a surface with no area.
  */
  method GetStarTextPoints(contextAvailable: bool, data: array<byte>, width: nat, height: nat)
    returns (result: Option<seq<Point>>)
    requires data.Length == width * height * 4
    ensures result.None? <==> ImageDataThrows(contextAvailable, width, height)
    ensures result.Some? ==> result.value == TextPoints(contextAvailable, data[..], width, height)
    ensures result.Some? ==>
              forall p :: p in result.value <==> contextAvailable && Sampled(data[..], width, height, p)
    ensures result.Some? ==> RowMajor(result.value)
  {
    if !contextAvailable {
      return Some([]);
    }
    if width == 0 || height == 0 {
      return None;
    }
    var points := ScanGrid(data, width, height);
    result := Some(points);
  }

  /**
    The scan as the script runs it: for y = 0, 6, 12, ... below the height,
    one row of the scan.
  */
  method ScanGrid(data: array<byte>, width: nat, height: nat) returns (points: seq<Point>)
    requires data.Length == width * height * 4
    ensures points == GridPoints(data[..], width, height, 0)
  {
    ghost var image := data[..];
    ghost var whole := GridPoints(image, width, height, 0);
    points := [];
    var y: nat := 0;
    while y < height
      invariant points + GridPoints(image, width, height, y) == whole
      decreases height - y
    {
      ghost var below := GridPoints(image, width, height, y + Gap);
      var row := ScanRow(data, width, height, y);
      assert points + (row + below) == points + row + below;
      points := points + row;
      y := y + Gap;
    }
  }

  /**
    The inner loop of the scan on row `y`: for x = 0, 6, 12, ... below the
    width, push (x, y) when the alpha byte of that pixel exceeds 128.
  */
  method ScanRow(data: array<byte>, width: nat, height: nat, y: nat) returns (row: seq<Point>)
    requires data.Length == width * height * 4 && y < height
    ensures row == RowPoints(data[..], width, y, 0)
  {
    ghost var image := data[..];
    row := [];
    var x: nat := 0;
    while x < width
      invariant row + RowPoints(image, width, y, x) == RowPoints(image, width, y, 0)
      decreases width - x
    {
      var index := (y * width + x) * 4;
      AlphaIndexInBounds(width, height, x, y);
      assert index + 3 == AlphaIndex(width, x, y);
      ghost var rest := RowPoints(image, width, y, x + Gap);
      if data[index + 3] as int > AlphaThreshold {
        assert RowPoints(image, width, y, x) == [Point(x, y)] + rest;
        assert row + [Point(x, y)] + rest == row + ([Point(x, y)] + rest);
        row := row + [Point(x, y)];
      } else {
        assert RowPoints(image, width, y, x) == rest;
      }
      x := x + Gap;
    }
  }

  /** Every point of row `y` from column `x0` on is a grid cell of that row passing the alpha test. */
  lemma {:induction false} RowPointsExactly(data: seq<byte>, width: nat, y: nat, x0: nat, p: Point)
    requires x0 % Gap == 0
    ensures p in RowPoints(data, width, y, x0) <==>
              p.y == y && x0 <= p.x < width && p.x % Gap == 0 && Opaque(data, width, p.x, y)
    decreases width - x0
  {
    if x0 < width {
      RowPointsExactly(data, width, y, x0 + Gap, p);
      if x0 < p.x && p.x % Gap == 0 {
        assert x0 + Gap <= p.x;
      }
    }
  }

  lemma {:induction false} GridPointsExactly(data: seq<byte>, width: nat, height: nat, y0: nat, p: Point)
    requires y0 % Gap == 0
    ensures p in GridPoints(data, width, height, y0) <==>
              y0 <= p.y && Sampled(data, width, height, p)
    decreases height - y0
  {
    if y0 < height {
      var row := RowPoints(data, width, y0, 0);
      var rest := GridPoints(data, width, height, y0 + Gap);
      assert GridPoints(data, width, height, y0) == row + rest;
      RowPointsExactly(data, width, y0, 0, p);
      GridPointsExactly(data, width, height, y0 + Gap, p);
      if y0 < p.y && p.y % Gap == 0 {
        assert y0 + Gap <= p.y;
      }
      assert p in row + rest <==> p in row || p in rest;
    }
  }

  /** The sampler emits exactly the grid cells whose alpha byte exceeds the threshold. */
  lemma TextPointsExactly(data: seq<byte>, width: nat, height: nat)
    ensures forall p :: p in GridPoints(data, width, height, 0) <==> Sampled(data, width, height, p)
  {
    forall p ensures p in GridPoints(data, width, height, 0) <==> Sampled(data, width, height, p) {
      GridPointsExactly(data, width, height, 0, p);
    }
  }

  lemma ConcatRowMajor(a: seq<Point>, b: seq<Point>)
    requires RowMajor(a) && RowMajor(b)
    requires forall p, q :: p in a && q in b ==> Before(p, q)
    ensures RowMajor(a + b)
  {
    forall i, j | 0 <= i < j < |a + b| ensures Before((a + b)[i], (a + b)[j]) {
      if j < |a| {
      } else if i >= |a| {
        assert (a + b)[i] == b[i - |a|] && (a + b)[j] == b[j - |a|];
      } else {
        assert (a + b)[i] in a && (a + b)[j] in b;
      }
    }
  }

  lemma {:induction false} RowPointsRowMajor(data: seq<byte>, width: nat, y: nat, x0: nat)
    ensures RowMajor(RowPoints(data, width, y, x0))
    ensures forall p :: p in RowPoints(data, width, y, x0) ==> p.y == y && x0 <= p.x
    decreases width - x0
  {
    if x0 < width {
      RowPointsRowMajor(data, width, y, x0 + Gap);
      var head := if Opaque(data, width, x0, y) then [Point(x0, y)] else [];
      ConcatRowMajor(head, RowPoints(data, width, y, x0 + Gap));
    }
  }

  lemma {:induction false} GridPointsRowMajor(data: seq<byte>, width: nat, height: nat, y0: nat)
    ensures RowMajor(GridPoints(data, width, height, y0))
    ensures forall p :: p in GridPoints(data, width, height, y0) ==> y0 <= p.y
    decreases height - y0
  {
    if y0 < height {
      RowPointsRowMajor(data, width, y0, 0);
      GridPointsRowMajor(data, width, height, y0 + Gap);
      ConcatRowMajor(RowPoints(data, width, y0, 0), GridPoints(data, width, height, y0 + Gap));
    }
  }

  /** Points come out row by row, left to right within a row, each exactly once. */
  lemma TextPointsRowMajor(data: seq<byte>, width: nat, height: nat)
    ensures RowMajor(GridPoints(data, width, height, 0))
  {
    GridPointsRowMajor(data, width, height, 0);
  }

  /** Row-major order is strict, so no cell is emitted twice. */
  lemma RowMajorDistinct(s: seq<Point>)
    requires RowMajor(s)
    ensures forall i, j :: 0 <= i < j < |s| ==> s[i] != s[j]
  {
  }
}
