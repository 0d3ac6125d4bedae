/** Coordinate conversions of the PDF backend. Poppler measures y upwards
    from the bottom of the page; the viewer measures it downwards from the
    top, so every rectangle crossing the boundary is flipped against the
    page height. */
module PdfGeometry {

  datatype Rect = Rect(x1: real, y1: real, x2: real, y2: real)

  predicate Ordered(r: Rect) { r.x1 <= r.x2 && r.y1 <= r.y2 }

  /** The flip applied to link areas, find results and text-selection
      rectangles: `(y1, y2)` becomes `(height - y2, height - y1)`. */
  function FlipY(r: Rect, height: real): (f: Rect)
    ensures f.x1 == r.x1 && f.x2 == r.x2
    ensures f.y2 - f.y1 == r.y2 - r.y1
    ensures f.y1 + r.y2 == height && f.y2 + r.y1 == height
    ensures Ordered(r) <==> Ordered(f)
  {
    Rect(r.x1, height - r.y2, r.x2, height - r.y1)
  }

  /** Flipping twice against the same height gives the rectangle back, so
      the viewer-to-Poppler conversion of `pdf_document_get_text` and the
      Poppler-to-viewer conversion of links and find results are inverses. */
  lemma FlipYInvolution(r: Rect, height: real)
    ensures FlipY(FlipY(r, height), height) == r
  {
  }

  /** A flipped rectangle covers a point exactly when the original covers
      the mirrored point. */
  lemma FlipYCovers(r: Rect, height: real, x: real, y: real)
    ensures (r.x1 <= x <= r.x2 && r.y1 <= y <= r.y2) <==>
            (var f := FlipY(r, height); f.x1 <= x <= f.x2 && f.y1 <= height - y <= f.y2)
  {
  }

  /** `copy_form_poppler_evince`: a form field's area flipped against the
      page height, then moved by the crop box origin (left by `x1`, down by
      `y1`). */
  function FormArea(area: Rect, height: real, cropBox: Rect): (f: Rect)
    ensures var flipped := FlipY(area, height);
      && f.x1 == flipped.x1 - cropBox.x1 && f.x2 == flipped.x2 - cropBox.x1
      && f.y1 == flipped.y1 + cropBox.y1 && f.y2 == flipped.y2 + cropBox.y1
    ensures f.x2 - f.x1 == area.x2 - area.x1 && f.y2 - f.y1 == area.y2 - area.y1
    ensures Ordered(area) <==> Ordered(f)
  {
    Rect(area.x1 - cropBox.x1, height - area.y2 + cropBox.y1,
         area.x2 - cropBox.x1, height - area.y1 + cropBox.y1)
  }

  /** The form-field conversion can be undone: moving back by the crop box
      and flipping again recovers the Poppler area. */
  lemma FormAreaInvertible(area: Rect, height: real, cropBox: Rect)
    ensures var f := FormArea(area, height, cropBox);
      FlipY(Rect(f.x1 + cropBox.x1, f.y1 - cropBox.y1, f.x2 + cropBox.x1, f.y2 - cropBox.y1), height) == area
  {
  }

  /** The size of a generated thumbnail: width and height trade places for
      a quarter or three-quarter turn and stay put otherwise. */
  function RotatedSize(width: int, height: int, rotation: int): (int, int)
  {
    if rotation == 90 || rotation == 270 then (height, width) else (width, height)
  }

  /** Rotating the size twice by the same angle restores it, and the area
      of the thumbnail is the same either way. */
  lemma RotatedSizeInvolution(width: int, height: int, rotation: int)
    ensures var r := RotatedSize(width, height, rotation);
      && RotatedSize(r.0, r.1, rotation) == (width, height)
      && r.0 * r.1 == width * height
      && (r == (width, height) || r == (height, width))
  {
  }
}
