/** The warning overlay: a copy of the frame with the resized alert image stamped into
    its four corners (application_code.py, flash_alert_image). */
module Overlay {
  import opened Wrappers

  /** One colour channel of an 8-bit image. */
  newtype Byte = x: int | 0 <= x < 256

  /** One pixel of a colour frame (OpenCV's channel order). */
  datatype Pixel = Pixel(blue: Byte, green: Byte, red: Byte)

  /** A frame or image: rows by columns of pixels. */
  type Image = array2<Pixel>

  /** Pixel (i, j) of an h-by-w frame lies in one of its four (h/4)-by-(w/4) corner blocks. */
  predicate InCorner(h: nat, w: nat, i: nat, j: nat)
  {
    (i < h / 4 || h - h / 4 <= i) && (j < w / 4 || w - w / 4 <= j)
  }

  /** The alert-image pixel (row, column) that the four corner stamps leave at pixel
      (i, j) of an h-by-w frame, or None when no stamp covers it. The stamps are the
      resized image's (h/4)-by-(w/4) blocks at the top-left, top-right, bottom-left and
      bottom-right, written in that order, so a later one wins where two would meet. */
  function StampedFrom(h: nat, w: nat, i: nat, j: nat): (src: Option<(nat, nat)>)
    requires i < h && j < w
    ensures src.Some? ==> src.value.0 < h / 4 && src.value.1 < w / 4
    ensures src.Some? <==> InCorner(h, w, i, j)
  {
    var ah, aw := h / 4, w / 4;
    if h - ah <= i && w - aw <= j then Some((i - (h - ah), j - (w - aw)))
    else if h - ah <= i && j < aw then Some((i - (h - ah), j))
    else if i < ah && w - aw <= j then Some((i, j - (w - aw)))
    else if i < ah && j < aw then Some((i, j))
    else None
  }

  /** The four corner blocks of an h-by-w frame cannot overlap, since 2*(h/4) <= h and
      2*(w/4) <= w; so each stamp survives the ones written after it, and every corner
      shows the whole alert image. */
  lemma CornersShowAlert(h: nat, w: nat, i: nat, j: nat)
    requires i < h / 4 && j < w / 4
    ensures StampedFrom(h, w, i, j) == Some((i, j))
    ensures StampedFrom(h, w, i, w - w / 4 + j) == Some((i, j))
    ensures StampedFrom(h, w, h - h / 4 + i, j) == Some((i, j))
    ensures StampedFrom(h, w, h - h / 4 + i, w - w / 4 + j) == Some((i, j))
  {
    assert 2 * (h / 4) <= h && 2 * (w / 4) <= w;
  }

  /** Pixel (i, j) of `r` is what stamping the alert image `img` (sized h/4 by w/4) into
      the four corners of the h-by-w frame `frame` leaves there: the image pixel the last
      stamp covering it wrote, or the frame's own pixel when no stamp covers it. */
  ghost predicate OverlayPixel(r: Image, frame: Image, img: Image, i: int, j: int)
    reads r, frame, img
  {
    0 <= i < r.Length0 && 0 <= j < r.Length1
    && r.Length0 == frame.Length0 && r.Length1 == frame.Length1
    && img.Length0 == frame.Length0 / 4 && img.Length1 == frame.Length1 / 4
    && r[i, j] == match StampedFrom(r.Length0, r.Length1, i, j)
                  case Some(p) => img[p.0, p.1]
                  case None => frame[i, j]
  }

  /** `r` is the frame `frame` with the alert image `img` stamped into its four corners:
      same size as the frame, image pixels where a stamp covers, frame pixels elsewhere. */
  ghost predicate IsAlertOverlay(r: Image, frame: Image, img: Image)
    reads r, frame, img
  {
    r.Length0 == frame.Length0 && r.Length1 == frame.Length1
    && img.Length0 == frame.Length0 / 4 && img.Length1 == frame.Length1 / 4
    && forall i, j {:trigger OverlayPixel(r, frame, img, i, j)} ::
         0 <= i < r.Length0 && 0 <= j < r.Length1 ==> OverlayPixel(r, frame, img, i, j)
  }

  /** In an overlaid frame every corner block equals the alert image and every pixel
      outside the corners equals the frame's. */
  lemma OverlayCorners(r: Image, frame: Image, img: Image)
    requires IsAlertOverlay(r, frame, img)
    ensures var h, w := r.Length0, r.Length1;
      forall i, j :: 0 <= i < h / 4 && 0 <= j < w / 4 ==>
        r[i, j] == img[i, j] && r[i, w - w / 4 + j] == img[i, j]
        && r[h - h / 4 + i, j] == img[i, j] && r[h - h / 4 + i, w - w / 4 + j] == img[i, j]
    ensures var h, w := r.Length0, r.Length1;
      forall i, j :: 0 <= i < h && 0 <= j < w && !InCorner(h, w, i, j) ==> r[i, j] == frame[i, j]
  {
    var h, w := r.Length0, r.Length1;
    forall i, j | 0 <= i < h / 4 && 0 <= j < w / 4
      ensures r[i, j] == img[i, j] && r[i, w - w / 4 + j] == img[i, j]
      ensures r[h - h / 4 + i, j] == img[i, j] && r[h - h / 4 + i, w - w / 4 + j] == img[i, j]
    {
      CornersShowAlert(h, w, i, j);
      assert OverlayPixel(r, frame, img, i, j) && OverlayPixel(r, frame, img, i, w - w / 4 + j);
      assert OverlayPixel(r, frame, img, h - h / 4 + i, j);
      assert OverlayPixel(r, frame, img, h - h / 4 + i, w - w / 4 + j);
    }
    forall i, j | 0 <= i < h && 0 <= j < w && !InCorner(h, w, i, j) ensures r[i, j] == frame[i, j] {
      assert OverlayPixel(r, frame, img, i, j);
    }
  }

  /** Overwrites the block of `dst` whose top-left pixel is (top, left) with `img`,
      as one slice assignment `dst[top:top+ih, left:left+iw] = img` does. */
  method Stamp(dst: Image, img: Image, top: nat, left: nat)
    requires dst != img
    requires top + img.Length0 <= dst.Length0 && left + img.Length1 <= dst.Length1
    modifies dst
    ensures forall i, j :: 0 <= i < dst.Length0 && 0 <= j < dst.Length1 ==>
      dst[i, j] == if top <= i < top + img.Length0 && left <= j < left + img.Length1
                   then img[i - top, j - left] else old(dst[i, j])
  {
    var r := 0;
    while r < img.Length0
      invariant 0 <= r <= img.Length0
      invariant forall i, j :: 0 <= i < dst.Length0 && 0 <= j < dst.Length1 ==>
        dst[i, j] == if top <= i < top + r && left <= j < left + img.Length1
                     then img[i - top, j - left] else old(dst[i, j])
    {
      var c := 0;
      while c < img.Length1
        invariant 0 <= c <= img.Length1
        invariant forall i, j :: 0 <= i < dst.Length0 && 0 <= j < dst.Length1 ==>
          dst[i, j] == if (top <= i < top + r && left <= j < left + img.Length1)
                          || (i == top + r && left <= j < left + c)
                       then img[i - top, j - left] else old(dst[i, j])
      {
        dst[top + r, left + c] := img[r, c];
        c := c + 1;
      }
      r := r + 1;
    }
  }

  /** flash_alert_image: copy the frame, then stamp the already-resized alert image
      (h/4 rows by w/4 columns) into the copy's top-left, top-right, bottom-left and
      bottom-right corners. The caller's frame is left as it was. */
  method FlashAlertImage(frame: Image, alertImage: Image) returns (r: Image)
    requires frame.Length0 >= 4 && frame.Length1 >= 4
    requires alertImage.Length0 == frame.Length0 / 4 && alertImage.Length1 == frame.Length1 / 4
    ensures fresh(r)
    ensures IsAlertOverlay(r, frame, alertImage)
  {
    var h, w := frame.Length0, frame.Length1;
    r := new Pixel[h, w]((i, j) reads frame requires 0 <= i < h && 0 <= j < w => frame[i, j]);
    var ah, aw := alertImage.Length0, alertImage.Length1;
    Stamp(r, alertImage, 0, 0);
    Stamp(r, alertImage, 0, w - aw);
    Stamp(r, alertImage, h - ah, 0);
    Stamp(r, alertImage, h - ah, w - aw);
    forall i, j | 0 <= i < h && 0 <= j < w ensures OverlayPixel(r, frame, alertImage, i, j) {
    }
  }
}
