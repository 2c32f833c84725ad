/**
  The per-frame plate search of the camera loop (app/cam.py:72-129), lifted
  out of the loop into a method over the contours of one frame. The OpenCV
  and Tesseract calls are not modelled: each contour arrives as a descriptor
  holding what those calls report about it.
*/
module Detection {
  import opened Options
  import opened Geometry
  import Crop
  import PlateText

  /** Area a contour must exceed to be looked at. */
  const MinArea: real := 150.0
  /** Inner contours a rectangle's crop must exceed to be read. */
  const MinInnerContours: nat := 10
  /** Colour planes of a frame decoded with IMREAD_COLOR. */
  const ColourPlanes: nat := 3

  /**
    One external contour of the frame, as the foreign calls see it:
    `area` from contourArea, `convex` from isContourConvex on the 2.5%
    approximation, `vertices` the 7% approximation, `innerContours` the number
    of contours found in the crop of its bounding box, and `ocrText` what the
    OCR engine returns for its rectified, trimmed image.
  */
  datatype Contour = Contour(area: real, convex: bool, vertices: seq<Point>, innerContours: nat, ocrText: string)

  /** What the loop reports for one rectified rectangle. */
  datatype PlateRead = PlateRead(
    rectification: Rectification,
    trimmed: Crop.Shape,
    cleaned: string,
    plate: Option<string>)

  /** First pass: large enough, and convex once approximated. */
  predicate FirstPassKeeps(c: Contour) {
    c.area > MinArea && c.convex
  }

  /** Second pass: the coarse approximation is a rectangle or a triangle. */
  predicate SecondPassKeeps(c: Contour) {
    |c.vertices| == 4 || |c.vertices| == 3
  }

  /** A rectangle with enough detail inside to be rectified and read. */
  predicate IsRead(c: Contour) {
    |c.vertices| == 4 && c.innerContours > MinInnerContours
  }

  /** The elements of s that keep holds for, in their order in s. */
  function Filter(keep: Contour -> bool, s: seq<Contour>): (r: seq<Contour>)
    ensures |r| <= |s|
  {
    if s == [] then []
    else Filter(keep, s[..|s| - 1]) + (if keep(s[|s| - 1]) then [s[|s| - 1]] else [])
  }

  lemma {:induction false} FilterConcat(keep: Contour -> bool, a: seq<Contour>, b: seq<Contour>)
    ensures Filter(keep, a + b) == Filter(keep, a) + Filter(keep, b)
  {
    if b == [] {
      assert a + b == a;
    } else {
      var ab, init, last := a + b, b[..|b| - 1], b[|b| - 1];
      var tail := if keep(last) then [last] else [];
      assert ab[..|ab| - 1] == a + init;
      assert ab[|ab| - 1] == last;
      assert Filter(keep, ab) == Filter(keep, a + init) + tail;
      assert Filter(keep, b) == Filter(keep, init) + tail;
      FilterConcat(keep, a, init);
    }
  }

  lemma FilterSingle(keep: Contour -> bool, c: Contour)
    ensures Filter(keep, [c]) == if keep(c) then [c] else []
  {
    assert [c][..0] == [];
  }

  /** Filtering keeps exactly the elements keep holds for. */
  lemma {:induction false} FilterMembers(keep: Contour -> bool, s: seq<Contour>)
    ensures forall c :: c in Filter(keep, s) <==> c in s && keep(c)
  {
    if s != [] {
      var init := s[..|s| - 1];
      FilterMembers(keep, init);
      assert s == init + [s[|s| - 1]];
    }
  }

  function FirstPass(contours: seq<Contour>): seq<Contour> {
    Filter(FirstPassKeeps, contours)
  }

  function SecondPass(candidates: seq<Contour>): seq<Contour> {
    Filter(SecondPassKeeps, candidates)
  }

  /** Every contour that would be read can be rectified (the source does not
      guard against a zero width or height). */
  predicate ReadingsRectifiable(contours: seq<Contour>) {
    forall c :: c in contours && FirstPassKeeps(c) && IsRead(c) ==> Rectifiable(c.vertices)
  }

  /** Every rectangle to be read among the candidates can be rectified. */
  predicate ReadsRectifiable(candidates: seq<Contour>) {
    forall c {:trigger Rectifiable(c.vertices)} :: c in candidates && IsRead(c) ==> Rectifiable(c.vertices)
  }

  /** Rectify, trim and read one rectangle. */
  function ReadOne(c: Contour): (r: PlateRead)
    requires IsRead(c) && Rectifiable(c.vertices)
    ensures r.plate.Some? ==> r.plate.value == r.cleaned
  {
    var rect := Straighten(c.vertices);
    var shape := Crop.Shape(rect.size.height, rect.size.width, ColourPlanes);
    PlateRead(rect, Crop.TrimShape(shape), PlateText.Clean(c.ocrText), PlateText.Recognize(c.ocrText))
  }

  /** What one reading holds: the rectification of the coarse approximation,
      its output size trimmed by the border on every side with the three
      colour planes kept, the cleaned OCR text and the plate recognised in it. */
  lemma ReadOneFields(c: Contour)
    requires IsRead(c) && Rectifiable(c.vertices)
    ensures ReadOne(c).rectification == Straighten(c.vertices)
    ensures ReadOne(c).rectification.source == OrderPoints(c.vertices)
    ensures ReadOne(c).rectification.size == TargetSize(OrderPoints(c.vertices))
    ensures ReadOne(c).trimmed == Crop.TrimShape(Crop.Shape(ReadOne(c).rectification.size.height, ReadOne(c).rectification.size.width, ColourPlanes))
    ensures ReadOne(c).trimmed.channels == ColourPlanes
    ensures ReadOne(c).cleaned == PlateText.Clean(c.ocrText)
    ensures ReadOne(c).plate == PlateText.Recognize(c.ocrText)
  {
  }

  /** The readings of the rectangles among the first-pass candidates, in order. */
  function Readings(candidates: seq<Contour>): (r: seq<PlateRead>)
    requires ReadsRectifiable(candidates)
    ensures |r| == |Filter(IsRead, candidates)|
  {
    var gated := Filter(IsRead, candidates);
    FilterMembers(IsRead, candidates);
    seq(|gated|, k requires 0 <= k < |gated| => ReadOne(gated[k]))
  }

  /**
    The rectified plate of c is at most 2 * Border pixels wide or high, so
    the border trim leaves an empty image. Showing an empty image raises,
    and the exception handler of the capture loop abandons the frame.
  */
  predicate Aborts(c: Contour) {
    && IsRead(c)
    && var size := TargetSize(OrderPoints(c.vertices));
       size.width <= 2 * Crop.Border || size.height <= 2 * Crop.Border
  }

  /** Position of the first candidate whose reading abandons the frame
      (the number of candidates when there is none). */
  function AbortAt(candidates: seq<Contour>): (k: nat)
    ensures k <= |candidates|
  {
    if candidates == [] then 0
    else if Aborts(candidates[0]) then 0
    else 1 + AbortAt(candidates[1..])
  }

  /**
    The two passes of the loop body. The first keeps, in order, the contours
    with area above MinArea whose approximation is convex; the second keeps,
    in order, the candidates whose coarse approximation has 4 or 3 vertices,
    and rectifies, trims and reads the 4-vertex ones with more than
    MinInnerContours inner contours. A rectangle whose trimmed image is empty
    abandons the rest of the frame: it is kept but not read, and no later
    candidate is looked at.
  */
  method Detect(contours: seq<Contour>) returns (candidates: seq<Contour>, kept: seq<Contour>, readings: seq<PlateRead>, aborted: bool)
    requires ReadingsRectifiable(contours)
    ensures candidates == FirstPass(contours)
    ensures ReadsRectifiable(candidates)
    ensures aborted <==> AbortAt(candidates) < |candidates|
    ensures kept == SecondPass(candidates[..if aborted then AbortAt(candidates) + 1 else |candidates|])
    ensures readings == Readings(candidates[..AbortAt(candidates)])
  {
    candidates := [];
    for i := 0 to |contours|
      invariant candidates == FirstPass(contours[..i])
    {
      var contour := contours[i];
      assert contours[..i + 1] == contours[..i] + [contour];
      FilterConcat(FirstPassKeeps, contours[..i], [contour]);
      FilterSingle(FirstPassKeeps, contour);
      if contour.area > MinArea {
        if contour.convex {
          candidates := candidates + [contour];
        }
      }
    }
    assert contours[..|contours|] == contours;
    FilterMembers(FirstPassKeeps, contours);
    kept, readings, aborted := SecondLoop(candidates);
  }

  /** The second loop of Detect, over the first-pass candidates. */
  method SecondLoop(candidates: seq<Contour>) returns (kept: seq<Contour>, readings: seq<PlateRead>, aborted: bool)
    requires ReadsRectifiable(candidates)
    ensures aborted <==> AbortAt(candidates) < |candidates|
    ensures kept == SecondPass(candidates[..if aborted then AbortAt(candidates) + 1 else |candidates|])
    ensures readings == Readings(candidates[..AbortAt(candidates)])
  {
    kept, readings, aborted := [], [], false;
    var i := 0;
    while i < |candidates|
      invariant i <= |candidates| && i <= AbortAt(candidates)
      invariant kept == SecondPass(candidates[..i])
      invariant readings == Readings(candidates[..i])
    {
      var contour := candidates[i];
      assert candidates[..i + 1] == candidates[..i] + [contour];
      FilterConcat(SecondPassKeeps, candidates[..i], [contour]);
      FilterSingle(SecondPassKeeps, contour);
      AbortStep(candidates, i);
      ReadingsStep(candidates, i);
      if |contour.vertices| == 4 {
        kept := kept + [contour];
        if contour.innerContours > MinInnerContours {
          var reading := ReadRectangle(contour);
          if reading.None? {
            // the exception leaves the loop over this frame's contours
            aborted := true;
            break;
          }
          readings := readings + [reading.value];
        }
      } else if |contour.vertices| == 3 {
        kept := kept + [contour];
      }
      i := i + 1;
    }
    assert aborted ==> i == AbortAt(candidates);
    assert !aborted ==> i == |candidates| == AbortAt(candidates);
  }

  /**
    The body of the loop for a rectangle with enough detail: rectify it,
    trim the border, and, unless the trimmed image is empty (showing it
    raises and abandons the frame), clean and recognise the OCR text.
  */
  method ReadRectangle(c: Contour) returns (reading: Option<PlateRead>)
    requires IsRead(c) && Rectifiable(c.vertices)
    ensures reading.None? <==> Aborts(c)
    ensures reading.Some? ==> reading.value == ReadOne(c)
  {
    ReadOneParts(c);
    var rectified := Straighten(c.vertices);
    var trimmed := Crop.TrimShape(Crop.Shape(rectified.size.height, rectified.size.width, ColourPlanes));
    if trimmed.height == 0 || trimmed.width == 0 {
      return None;
    }
    var cleaned := PlateText.Clean(c.ocrText);
    reading := Some(PlateRead(rectified, trimmed, cleaned, PlateText.Recognize(c.ocrText)));
  }

  /** A read rectangle aborts exactly when its trimmed image is empty, and
      otherwise its reading is assembled from the four steps of the loop body. */
  lemma ReadOneParts(c: Contour)
    requires IsRead(c) && Rectifiable(c.vertices)
    ensures var rectified := Straighten(c.vertices);
      var trimmed := Crop.TrimShape(Crop.Shape(rectified.size.height, rectified.size.width, ColourPlanes));
      && (Aborts(c) <==> trimmed.height == 0 || trimmed.width == 0)
      && ReadOne(c) == PlateRead(rectified, trimmed, PlateText.Clean(c.ocrText), PlateText.Recognize(c.ocrText))
  {
  }

  /** AbortAt finds the first aborting candidate: up to it, a candidate
      aborts exactly when it is that one. */
  lemma {:induction false} AbortStep(candidates: seq<Contour>, i: nat)
    requires i < |candidates| && i <= AbortAt(candidates)
    ensures Aborts(candidates[i]) <==> i == AbortAt(candidates)
  {
    if i > 0 && !Aborts(candidates[0]) {
      AbortStep(candidates[1..], i - 1);
    }
  }

  /** Readings grow by the reading of the next candidate, if it is read. */
  lemma ReadingsStep(candidates: seq<Contour>, i: nat)
    requires ReadsRectifiable(candidates)
    requires i < |candidates|
    ensures Readings(candidates[..i + 1]) ==
      Readings(candidates[..i]) + (if IsRead(candidates[i]) then [ReadOne(candidates[i])] else [])
  {
    var before, c := candidates[..i], candidates[i];
    assert candidates[..i + 1] == before + [c];
    FilterConcat(IsRead, before, [c]);
    FilterSingle(IsRead, c);
  }

  /** An axis-aligned rectangle at most 2 * Border pixels wide or high is
      too small to survive the trim: reading it abandons the frame. */
  lemma NarrowRectangleAborts(c: Contour, x0: int, y0: int, x1: int, y1: int)
    requires |c.vertices| == 4 && c.innerContours > MinInnerContours
    requires x0 < x1 && y0 < y1 && multiset(c.vertices) == multiset(Corners(x0, y0, x1, y1))
    requires x1 - x0 <= 2 * Crop.Border || y1 - y0 <= 2 * Crop.Border
    ensures Aborts(c)
  {
    AxisAlignedRectangle(c.vertices, x0, y0, x1, y1);
  }

  /** In a frame that is not abandoned, a contour is kept by the second pass
      exactly when it is in the frame, passes the first pass and has a
      triangle or rectangle approximation. */
  lemma KeptContours(contours: seq<Contour>, c: Contour)
    ensures c in SecondPass(FirstPass(contours)) <==>
      c in contours && c.area > MinArea && c.convex && (|c.vertices| == 4 || |c.vertices| == 3)
  {
    FilterMembers(FirstPassKeeps, contours);
    FilterMembers(SecondPassKeeps, FirstPass(contours));
  }

  /** The k-th read belongs to the k-th rectangle, in order, that passes both
      gates: nothing else is rectified or read. */
  lemma ReadingsMatchGated(candidates: seq<Contour>, k: nat)
    requires ReadsRectifiable(candidates)
    requires k < |Filter(IsRead, candidates)|
    ensures Filter(IsRead, candidates)[k] in candidates
    ensures IsRead(Filter(IsRead, candidates)[k])
    ensures Readings(candidates)[k] == ReadOne(Filter(IsRead, candidates)[k])
  {
    FilterMembers(IsRead, candidates);
  }
}
