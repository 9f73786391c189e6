/**
 * The bounding-box annotator (vision/get_box.py, class ImageBoundingBoxApp).
 *
 * The window keeps two lists: the points clicked for the box being drawn and the
 * boxes already made. Two accepted clicks make one box, normalised to its top-left
 * corner and its size, numbered one more than the boxes before it. Widget geometry
 * (the label and the scaled pixmap it shows), the file-dialog answers and the
 * confirmation dialog's answer are parameters; painting and message boxes are
 * left out.
 */
module BoxAnnotator {
  import opened Wrappers

  /** A pixel position, `QPoint`. */
  datatype Point = Point(x: int, y: int)

  /** A widget or image size in pixels. */
  datatype Size = Size(width: nat, height: nat)

  /** One saved box: `{id, x, y, width, height}`. */
  datatype BBox = BBox(id: int, x: int, y: int, width: int, height: int)

  /** The dictionary `save_all_boxes` writes. */
  datatype SavePayload = SavePayload(imagePath: string, imageWidth: int, imageHeight: int,
                                     totalBoxes: int, boundingBoxes: seq<BBox>)

  /** What `save_all_boxes` does: refuse an empty list, stop when the save dialog
      is cancelled, or write the payload to the chosen path. */
  datatype SaveOutcome = NothingToSave | SaveCancelled | Saved(path: string, payload: SavePayload)

  function Min(a: int, b: int): int { if a <= b then a else b }
  function Abs(a: int): int { if a < 0 then -a else a }

  /** `p` lies in the closed rectangle of `b`. */
  predicate Contains(b: BBox, p: Point)
  {
    b.x <= p.x <= b.x + b.width && b.y <= p.y <= b.y + b.height
  }

  /** The box made from two clicked points (`create_bounding_box`): its corner is
      the smaller of each coordinate and its size the distance between them, so it
      is the smallest box that holds both points. */
  function BoxFromPoints(id: int, p1: Point, p2: Point): (b: BBox)
    ensures b.id == id && b.width >= 0 && b.height >= 0
    ensures Contains(b, p1) && Contains(b, p2)
    ensures (b.x == p1.x || b.x == p2.x) && (b.x + b.width == p1.x || b.x + b.width == p2.x)
    ensures (b.y == p1.y || b.y == p2.y) && (b.y + b.height == p1.y || b.y + b.height == p2.y)
  {
    BBox(id, Min(p1.x, p2.x), Min(p1.y, p2.y), Abs(p2.x - p1.x), Abs(p2.y - p1.y))
  }

  /** Any box holding both points holds the box made from them. */
  lemma BoxIsTightest(id: int, p1: Point, p2: Point, other: BBox)
    requires Contains(other, p1) && Contains(other, p2)
    ensures var b := BoxFromPoints(id, p1, p2);
            other.x <= b.x && b.x + b.width <= other.x + other.width
            && other.y <= b.y && b.y + b.height <= other.y + other.height
  {
  }

  /** The order of the two clicks does not matter to the box. */
  lemma BoxIgnoresClickOrder(id: int, p1: Point, p2: Point)
    ensures BoxFromPoints(id, p1, p2) == BoxFromPoints(id, p2, p1)
  {
  }

  /** The pixel offset at which a centred pixmap sits in its label: Python's `//`,
      which floors, as Dafny's `/` does for a positive divisor. */
  function CentreOffset(labelSize: nat, pixmap: nat): int
  {
    (labelSize - pixmap) / 2
  }

  /** `convert_to_image_coordinates`: a click position in the label becomes a
      pixel of the original image when it falls on the displayed pixmap, and
      nothing otherwise. Scaling is done on exact rationals and truncated. */
  function ToImageCoordinates(labelSize: Size, pixmap: Size, original: Size, pos: Point): (r: Option<Point>)
    ensures var ix := pos.x - CentreOffset(labelSize.width, pixmap.width);
            var iy := pos.y - CentreOffset(labelSize.height, pixmap.height);
            r.Some? <==> 0 <= ix < pixmap.width && 0 <= iy < pixmap.height
    ensures r.Some? ==> 0 <= r.value.x <= original.width && 0 <= r.value.y <= original.height
    ensures r.Some? && original.width > 0 ==> r.value.x < original.width
    ensures r.Some? && original.height > 0 ==> r.value.y < original.height
  {
    var ix := pos.x - CentreOffset(labelSize.width, pixmap.width);
    var iy := pos.y - CentreOffset(labelSize.height, pixmap.height);
    if 0 <= ix < pixmap.width && 0 <= iy < pixmap.height then
      ScaleBelow(ix, pixmap.width, original.width);
      ScaleBelow(iy, pixmap.height, original.height);
      Some(Point(ix * original.width / pixmap.width, iy * original.height / pixmap.height))
    else
      None
  }

  /** Scaling a coordinate below `from` to the range of `to` keeps it in range. */
  lemma ScaleBelow(i: int, from: nat, to: nat)
    requires 0 <= i < from
    ensures 0 <= i * to / from <= to
    ensures to > 0 ==> i * to / from < to
  {
    assert 0 <= i * to <= from * to by {
      assert i * to <= from * to;
    }
    if to > 0 {
      assert i * to < from * to by {
        assert (from - i) * to > 0;
      }
    }
    DivBelow(i * to, from, to);
  }

  lemma DivBelow(n: int, d: int, q: int)
    requires d > 0 && 0 <= n <= d * q
    ensures 0 <= n / d <= q
    ensures n < d * q ==> n / d < q
  {
    var k := n / d;
    assert n == d * k + n % d;
  }

  /** Python truthiness of what `convert_to_image_coordinates` returns: `None`
      is false, and so is the null `QPoint(0, 0)`, whose `__bool__` is
      `not isNull()`. */
  predicate IsTruthyPoint(p: Option<Point>)
  {
    p.Some? && p.value != Point(0, 0)
  }

  /** `bs` is numbered 1, 2, ... in order. */
  predicate IdsConsecutive(bs: seq<BBox>)
  {
    forall i :: 0 <= i < |bs| ==> bs[i].id == i + 1
  }

  /** The point lies in the closed image rectangle. */
  predicate PointInImage(p: Point, size: Size)
  {
    0 <= p.x <= size.width && 0 <= p.y <= size.height
  }

  /** The box lies in the closed image rectangle and has a non-negative size. */
  predicate BoxInImage(b: BBox, size: Size)
  {
    0 <= b.x && 0 <= b.width && b.x + b.width <= size.width
    && 0 <= b.y && 0 <= b.height && b.y + b.height <= size.height
  }

  /** Consecutive numbering is kept by appending the box numbered one more than
      the count. */
  lemma AppendKeepsIdsConsecutive(bs: seq<BBox>, b: BBox)
    requires IdsConsecutive(bs) && b.id == |bs| + 1
    ensures IdsConsecutive(bs + [b])
  {
  }

  /** Consecutive numbers never repeat. */
  lemma ConsecutiveIdsAreDistinct(bs: seq<BBox>, i: int, j: int)
    requires IdsConsecutive(bs) && 0 <= i < j < |bs|
    ensures bs[i].id != bs[j].id
  {
  }

  class ImageBoundingBoxApp {
    /** The path of the loaded image; `None` until one is loaded. */
    var imagePath: Option<string>
    /** The size of `original_pixmap`; `None` while it is `None`. */
    var original: Option<Size>
    /** The points clicked for the box being drawn. */
    var clickPoints: seq<Point>
    /** The boxes made so far. */
    var boundingBoxes: seq<BBox>

    /** The state between two events, apart from the number of pending points:
        nothing is recorded before an image is loaded, boxes are numbered 1..n and
        every point and box lies within the image. */
    ghost predicate Consistent()
      reads this
    {
      && (imagePath.Some? <==> original.Some?)
      && (original.None? ==> clickPoints == [] && boundingBoxes == [])
      && IdsConsecutive(boundingBoxes)
      && (original.Some? ==>
            && (forall i :: 0 <= i < |clickPoints| ==> PointInImage(clickPoints[i], original.value))
            && (forall i :: 0 <= i < |boundingBoxes| ==> BoxInImage(boundingBoxes[i], original.value)))
    }

    /** The state between two events: fewer than two points are pending. */
    ghost predicate Valid()
      reads this
    {
      Consistent() && |clickPoints| <= 1
    }

    constructor ()
      ensures Valid()
      ensures imagePath == None && original == None && clickPoints == [] && boundingBoxes == []
    {
      imagePath := None;
      original := None;
      clickPoints := [];
      boundingBoxes := [];
    }

    /** `load_image`: `path` is the file dialog's answer ("" when cancelled) and
        `size` the size of the image read from it. A new image resets both lists. */
    method LoadImage(path: string, size: Size)
      requires Valid()
      modifies this
      ensures Valid()
      ensures path == "" ==> imagePath == old(imagePath) && original == old(original)
                             && clickPoints == old(clickPoints) && boundingBoxes == old(boundingBoxes)
      ensures path != "" ==> imagePath == Some(path) && original == Some(size)
                             && clickPoints == [] && boundingBoxes == []
    {
      if path != "" {
        imagePath := Some(path);
        original := Some(size);
        clickPoints := [];
        boundingBoxes := [];
      }
    }

    /** `create_bounding_box`: with exactly two pending points, append their box,
        numbered one more than the boxes before it, and clear the points. */
    method CreateBoundingBox()
      requires Consistent() && |clickPoints| <= 2
      modifies this
      ensures Valid()
      ensures imagePath == old(imagePath) && original == old(original)
      ensures |old(clickPoints)| == 2 ==>
                && boundingBoxes == old(boundingBoxes)
                     + [BoxFromPoints(|old(boundingBoxes)| + 1, old(clickPoints)[0], old(clickPoints)[1])]
                && clickPoints == []
      ensures |old(clickPoints)| != 2 ==> clickPoints == old(clickPoints) && boundingBoxes == old(boundingBoxes)
    {
      if |clickPoints| != 2 {
        return;
      }
      var box := BoxFromPoints(|boundingBoxes| + 1, clickPoints[0], clickPoints[1]);
      assert PointInImage(clickPoints[0], original.value) && PointInImage(clickPoints[1], original.value);
      AppendKeepsIdsConsecutive(boundingBoxes, box);
      boundingBoxes := boundingBoxes + [box];
      clickPoints := [];
    }

    /** `on_image_click`. `labelSize` and `pixmap` are the sizes of the label and of the
        pixmap it shows at the time of the click. A click before any image is
        loaded, off the pixmap, or on a spot that maps to pixel (0, 0), which
        `if image_pos:` reads as false, changes nothing; the second accepted
        point turns the pair into a box. */
    method OnImageClick(labelSize: Size, pixmap: Size, pos: Point)
      requires Valid()
      modifies this
      ensures Valid()
      ensures imagePath == old(imagePath) && original == old(original)
      ensures old(original).None? || !IsTruthyPoint(ToImageCoordinates(labelSize, pixmap, old(original).value, pos)) ==>
                clickPoints == old(clickPoints) && boundingBoxes == old(boundingBoxes)
      ensures old(original).Some? && IsTruthyPoint(ToImageCoordinates(labelSize, pixmap, old(original).value, pos)) ==>
                var p := ToImageCoordinates(labelSize, pixmap, old(original).value, pos).value;
                && (old(clickPoints) == [] ==> clickPoints == [p] && boundingBoxes == old(boundingBoxes))
                && (|old(clickPoints)| == 1 ==>
                      && clickPoints == []
                      && boundingBoxes == old(boundingBoxes)
                           + [BoxFromPoints(|old(boundingBoxes)| + 1, old(clickPoints)[0], p)])
    {
      if original.None? {
        return;
      }
      if |clickPoints| >= 2 {
        return;
      }
      var imagePos := ToImageCoordinates(labelSize, pixmap, original.value, pos);
      if IsTruthyPoint(imagePos) {
        clickPoints := clickPoints + [imagePos.value];
        if |clickPoints| == 2 {
          CreateBoundingBox();
        }
      }
    }

    /** `reset_current_points`: drop the pending points, keep the boxes. */
    method ResetCurrentPoints()
      requires Valid()
      modifies this
      ensures Valid()
      ensures clickPoints == [] && boundingBoxes == old(boundingBoxes)
      ensures imagePath == old(imagePath) && original == old(original)
    {
      clickPoints := [];
    }

    /** `clear_all_boxes`: with nothing recorded it only informs; otherwise it
        asks, and `confirmed` is the answer. A yes empties both lists. */
    method ClearAllBoxes(confirmed: bool)
      requires Valid()
      modifies this
      ensures Valid()
      ensures imagePath == old(imagePath) && original == old(original)
      ensures (old(boundingBoxes) == [] && old(clickPoints) == []) || !confirmed ==>
                clickPoints == old(clickPoints) && boundingBoxes == old(boundingBoxes)
      ensures confirmed ==> clickPoints == [] && boundingBoxes == []
    {
      if boundingBoxes == [] && clickPoints == [] {
        return;
      }
      if confirmed {
        boundingBoxes := [];
        clickPoints := [];
      }
    }

    /** `save_all_boxes`: `path` is the save dialog's answer ("" when cancelled).
        The payload records every box, numbered 1..n, and their count. */
    method SaveAllBoxes(path: string) returns (r: SaveOutcome)
      requires Valid()
      ensures boundingBoxes == [] <==> r == NothingToSave
      ensures r == SaveCancelled <==> boundingBoxes != [] && path == ""
      ensures r.Saved? ==>
                && r.path == path
                && r.payload.boundingBoxes == boundingBoxes
                && r.payload.totalBoxes == |boundingBoxes| > 0
                && IdsConsecutive(r.payload.boundingBoxes)
                && Some(r.payload.imagePath) == imagePath
                && original.Some?
                && original.value.width == r.payload.imageWidth
                && original.value.height == r.payload.imageHeight
    {
      if boundingBoxes == [] {
        return NothingToSave;
      }
      if path == "" {
        return SaveCancelled;
      }
      r := Saved(path, SavePayload(imagePath.value, original.value.width, original.value.height,
                                   |boundingBoxes|, boundingBoxes));
    }
  }

  /** Two clicks on a fresh image, each mapping to a pixel other than (0, 0),
      make box number 1 from those pixels and leave no point pending. */
  method TwoClicksMakeOneBox(labelSize: Size, pixmap: Size, size: Size, a: Point, b: Point)
    returns (boxes: seq<BBox>, pending: seq<Point>)
    requires IsTruthyPoint(ToImageCoordinates(labelSize, pixmap, size, a))
    requires IsTruthyPoint(ToImageCoordinates(labelSize, pixmap, size, b))
    ensures pending == []
    ensures boxes == [BoxFromPoints(1, ToImageCoordinates(labelSize, pixmap, size, a).value,
                                    ToImageCoordinates(labelSize, pixmap, size, b).value)]
  {
    var app := new ImageBoundingBoxApp();
    app.LoadImage("painting.jpg", size);
    app.OnImageClick(labelSize, pixmap, a);
    app.OnImageClick(labelSize, pixmap, b);
    boxes, pending := app.boundingBoxes, app.clickPoints;
  }

  /** A click whose pixel is (0, 0) is dropped: a first click there leaves no
      point pending, so the next accepted click does not make a box. */
  method ClickOnOriginIsDropped(labelSize: Size, pixmap: Size, size: Size, a: Point, b: Point)
    returns (boxes: seq<BBox>, pending: seq<Point>)
    requires ToImageCoordinates(labelSize, pixmap, size, a) == Some(Point(0, 0))
    requires IsTruthyPoint(ToImageCoordinates(labelSize, pixmap, size, b))
    ensures boxes == []
    ensures pending == [ToImageCoordinates(labelSize, pixmap, size, b).value]
  {
    var app := new ImageBoundingBoxApp();
    app.LoadImage("painting.jpg", size);
    app.OnImageClick(labelSize, pixmap, a);
    app.OnImageClick(labelSize, pixmap, b);
    boxes, pending := app.boundingBoxes, app.clickPoints;
  }
}
