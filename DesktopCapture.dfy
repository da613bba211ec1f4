/** The integer window arithmetic of src/desktop_capture.py: padding a
    detected board box while keeping it inside the screenshot, choosing
    between the two detectors, and the square crop window, with its central
    fallback when no board is found.

    The detectors themselves (Hough lines, contours) are left out: each
    gives a box or nothing, whether the box passes the 15%-of-image size test
    is a flag, and the padding `int(0.02 * max(ww, hh))` and the search area
    `int(w * 0.7)` by `int(h * 0.8)` are given integers. */
module DesktopCapture {
  import opened Wrappers

  /** A rectangle `(x, y, w, h)` in pixels. */
  datatype Box = Box(x: int, y: int, w: int, h: int)

  function Max(a: int, b: int): int { if a >= b then a else b }
  function Min(a: int, b: int): int { if a <= b then a else b }

  /** The box lies inside a `width` by `height` image. */
  predicate Inside(b: Box, width: int, height: int)
  {
    0 <= b.x && 0 <= b.y && 0 <= b.w && 0 <= b.h && b.x + b.w <= width && b.y + b.h <= height
  }

  /** Grow the box by `pad` on every side, clamping the origin at 0 and the
      size at the image's right and bottom edges. */
  function PadBox(b: Box, pad: int, width: int, height: int): (r: Box)
    ensures 0 <= r.x && 0 <= r.y
    ensures r.x + r.w <= width && r.y + r.h <= height
    ensures 0 <= b.x && 0 <= pad ==> r.x <= b.x
    ensures 0 <= b.y && 0 <= pad ==> r.y <= b.y
  {
    var x := Max(0, b.x - pad);
    var y := Max(0, b.y - pad);
    Box(x, y, Min(width - x, b.w + 2 * pad), Min(height - y, b.h + 2 * pad))
  }

  /** For a box whose origin is in the image, the padded box is inside the
      image, starts no later than the box, and covers the box whenever the
      image leaves room for it. */
  lemma PadBoxInside(b: Box, pad: int, width: int, height: int)
    requires 0 <= b.x <= width && 0 <= b.y <= height && 0 <= b.w && 0 <= b.h && 0 <= pad
    ensures Inside(PadBox(b, pad, width, height), width, height)
    ensures PadBox(b, pad, width, height).x <= b.x && PadBox(b, pad, width, height).y <= b.y
    ensures PadBox(b, pad, width, height).x == Max(0, b.x - pad) &&
            PadBox(b, pad, width, height).y == Max(0, b.y - pad)
    ensures b.x + b.w <= width ==>
              PadBox(b, pad, width, height).x + PadBox(b, pad, width, height).w >= b.x + b.w
    ensures b.y + b.h <= height ==>
              PadBox(b, pad, width, height).y + PadBox(b, pad, width, height).h >= b.y + b.h
  {
  }

  /** What one detector produced: nothing, or a box, whether it passed the
      size test, and its padding. */
  datatype Candidate = NotFound | Found(box: Box, bigEnough: bool, pad: int)

  predicate Accepted(c: Candidate)
  {
    c.Found? && c.bigEnough
  }

  /** `detect_board_bbox`: the grid detector's box if it passes the size
      test, else the contour detector's, padded; otherwise None. */
  function DetectBoardBbox(grid: Candidate, contour: Candidate, width: int, height: int): (r: Option<Box>)
    ensures r.None? <==> !Accepted(grid) && !Accepted(contour)
    ensures r.Some? ==> 0 <= r.value.x && 0 <= r.value.y &&
                        r.value.x + r.value.w <= width && r.value.y + r.value.h <= height
  {
    if Accepted(grid) then Some(PadBox(grid.box, grid.pad, width, height))
    else if Accepted(contour) then Some(PadBox(contour.box, contour.pad, width, height))
    else None
  }

  /** The grid detector is asked first and the contour detector only when the
      grid result is missing or too small; there is a box exactly when one of
      them passes (stated on `DetectBoardBbox` itself). */
  lemma GridBeforeContour(grid: Candidate, contour: Candidate, other: Candidate, width: int, height: int)
    ensures Accepted(grid) ==> DetectBoardBbox(grid, contour, width, height) == DetectBoardBbox(grid, other, width, height)
    ensures Accepted(grid) ==> DetectBoardBbox(grid, contour, width, height) == Some(PadBox(grid.box, grid.pad, width, height))
    ensures !Accepted(grid) && Accepted(contour) ==>
              DetectBoardBbox(grid, contour, width, height) == Some(PadBox(contour.box, contour.pad, width, height))
  {
  }

  /** A square crop window: origin and side. */
  datatype Window = Window(x: int, y: int, side: int)

  /** `crop_board`: with a box, the square of side `min(ww, hh)` at its
      origin; without, a square centred in the search area. */
  function CropWindow(bbox: Option<Box>, width: int, height: int, searchW: int, searchH: int): (r: Window)
    ensures bbox.Some? ==> r.x == bbox.value.x && r.y == bbox.value.y &&
                           r.side <= bbox.value.w && r.side <= bbox.value.h
    ensures bbox.None? ==> 0 <= r.x && 0 <= r.y && r.x + r.side <= width && r.y + r.side <= height
  {
    match bbox
    case Some(b) => Window(b.x, b.y, Min(b.w, b.h))
    case None =>
      var cx := searchW / 2;
      var cy := searchH / 2;
      var half := Min(searchW, searchH) / 2;
      var x := Max(0, cx - half);
      var y := Max(0, cy - half);
      Window(x, y, Min(Min(half * 2, width - x), height - y))
  }

  /** The fallback window never needs its clamp (half of the smaller search
      side is at most either centre coordinate), and it lies inside the
      image when the search area does. */
  lemma FallbackWindowInside(width: int, height: int, searchW: int, searchH: int)
    requires 0 <= searchW <= width && 0 <= searchH <= height
    ensures var win := CropWindow(None, width, height, searchW, searchH);
            win.x == searchW / 2 - Min(searchW, searchH) / 2 &&
            win.y == searchH / 2 - Min(searchW, searchH) / 2 &&
            0 <= win.x && 0 <= win.y && 0 <= win.side &&
            win.x + win.side <= width && win.y + win.side <= height &&
            win.side <= Min(searchW, searchH)
  {
  }

  /** With a detected box the window is a square no larger than either side
      of the box, so it stays inside the box and hence inside the image. */
  lemma BoxWindowInside(b: Box, width: int, height: int)
    requires Inside(b, width, height)
    ensures var win := CropWindow(Some(b), width, height, 0, 0);
            win.x == b.x && win.y == b.y && win.side == Min(b.w, b.h) &&
            0 <= win.side && win.x + win.side <= width && win.y + win.side <= height
  {
  }

  /** End to end: whatever the detectors report (origins inside the image,
      sizes and paddings non-negative), the crop window lies inside the
      image. */
  lemma CropInsideImage(grid: Candidate, contour: Candidate, width: int, height: int, searchW: int, searchH: int)
    requires 0 <= searchW <= width && 0 <= searchH <= height
    requires grid.Found? ==> 0 <= grid.box.x <= width && 0 <= grid.box.y <= height &&
                             0 <= grid.box.w && 0 <= grid.box.h && 0 <= grid.pad
    requires contour.Found? ==> 0 <= contour.box.x <= width && 0 <= contour.box.y <= height &&
                                0 <= contour.box.w && 0 <= contour.box.h && 0 <= contour.pad
    ensures var win := CropWindow(DetectBoardBbox(grid, contour, width, height), width, height, searchW, searchH);
            0 <= win.x && 0 <= win.y && 0 <= win.side && win.x + win.side <= width && win.y + win.side <= height
  {
    var bbox := DetectBoardBbox(grid, contour, width, height);
    if Accepted(grid) {
      PadBoxInside(grid.box, grid.pad, width, height);
      BoxWindowInside(bbox.value, width, height);
    } else if Accepted(contour) {
      PadBoxInside(contour.box, contour.pad, width, height);
      BoxWindowInside(bbox.value, width, height);
    } else {
      FallbackWindowInside(width, height, searchW, searchH);
    }
  }
}
