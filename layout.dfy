/** Fit-to-page placement of one image on a PDF page (the scaling part of
    `processImage`, my-react-app/src/PdfConverter.jsx lines 37-49), in exact real
    arithmetic. Page and image sizes are parameters: the page size comes from the
    PDF library and the image size from decoding the image, neither modelled here. */
module Layout {

  /** The fixed margin on every side of the page, in millimetres. */
  const Margin: real := 10.0

  /** Where and how large an image is drawn on its page. */
  datatype Placement = Placement(x: real, y: real, width: real, height: real)

  function Min(a: real, b: real): (m: real)
    ensures m <= a && m <= b && (m == a || m == b)
  {
    if a <= b then a else b
  }

  /** Width of the printable area: the page width less a margin on each side. */
  function MaxWidth(pageWidth: real): real
  {
    pageWidth - 2.0 * Margin
  }

  /** Height of the printable area: the page height less a margin on each side. */
  function MaxHeight(pageHeight: real): real
  {
    pageHeight - 2.0 * Margin
  }

  /** The one scale factor applied to both sides of the image: the larger of the
      two that make it as wide or as tall as the printable area, whichever fits.
      The source divides without checking, so a zero side is excluded here. */
  function FitRatio(maxWidth: real, maxHeight: real, width: real, height: real): (ratio: real)
    requires width > 0.0 && height > 0.0
    ensures ratio * width <= maxWidth && ratio * height <= maxHeight
    ensures ratio * width == maxWidth || ratio * height == maxHeight
  {
    Min(maxWidth / width, maxHeight / height)
  }

  /** The placement `processImage` passes to `addImage`: the image scaled by the
      fit ratio and anchored at the top-left margin. */
  function FitToPage(pageWidth: real, pageHeight: real, width: real, height: real): (p: Placement)
    requires width > 0.0 && height > 0.0
    ensures p.x == Margin && p.y == Margin
    ensures p.width <= MaxWidth(pageWidth) && p.height <= MaxHeight(pageHeight)
    ensures p.width == MaxWidth(pageWidth) || p.height == MaxHeight(pageHeight)
    ensures p.width * height == p.height * width
  {
    var ratio := FitRatio(MaxWidth(pageWidth), MaxHeight(pageHeight), width, height);
    Placement(Margin, Margin, width * ratio, height * ratio)
  }

  /** No uniform scale larger than the fit ratio keeps the image inside the
      printable area, so the fit ratio is the largest one that does. */
  lemma FitRatioIsGreatest(maxWidth: real, maxHeight: real, width: real, height: real, r: real)
    requires width > 0.0 && height > 0.0
    requires r * width <= maxWidth && r * height <= maxHeight
    ensures r <= FitRatio(maxWidth, maxHeight, width, height)
  {
  }

  /** On a page with a non-empty printable area the image lies inside the
      margins on all four sides and keeps a positive size. */
  lemma FitsInsideMargins(pageWidth: real, pageHeight: real, width: real, height: real)
    requires width > 0.0 && height > 0.0
    requires MaxWidth(pageWidth) > 0.0 && MaxHeight(pageHeight) > 0.0
    ensures var p := FitToPage(pageWidth, pageHeight, width, height);
            0.0 < p.width && 0.0 < p.height &&
            Margin <= p.x && p.x + p.width <= pageWidth - Margin &&
            Margin <= p.y && p.y + p.height <= pageHeight - Margin
  {
  }

  /** The ratio is not capped at 1: an image smaller than the printable area in
      both directions is enlarged. */
  lemma SmallImagesAreEnlarged(pageWidth: real, pageHeight: real, width: real, height: real)
    requires width > 0.0 && height > 0.0
    requires width < MaxWidth(pageWidth) && height < MaxHeight(pageHeight)
    ensures var p := FitToPage(pageWidth, pageHeight, width, height);
            p.width > width && p.height > height
  {
  }

  /** An 800 x 600 landscape image on a portrait 210 x 297 mm A4 page fills the
      printable width of 190 mm and is 142.5 mm tall. */
  lemma LandscapeImageOnA4()
    ensures FitToPage(210.0, 297.0, 800.0, 600.0) == Placement(10.0, 10.0, 190.0, 142.5)
  {
  }
}
