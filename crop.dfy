/**
  The fixed border trim applied to the rectified plate before OCR
  (`rectangulo_enderezado[5:alto-5, 5:ancho-5]`), with Python's slice rules:
  a negative bound counts from the end, and every bound is clamped to the
  length.
*/
module Crop {

  /** Pixels removed from every side of the rectified plate. */
  const Border: nat := 5

  /** Height, width and number of colour planes of an image. */
  datatype Shape = Shape(height: nat, width: nat, channels: nat)

  /** Where a slice bound lands in a sequence of length n (step 1). */
  function SliceIndex(i: int, n: nat): (r: nat)
    ensures r <= n
    ensures 0 <= i <= n ==> r == i
    ensures i < 0 && 0 <= i + n ==> r == i + n
    ensures i + n < 0 ==> r == 0
    ensures n < i ==> r == n
  {
    if i < 0 then (if i + n < 0 then 0 else i + n)
    else if i > n then n
    else i
  }

  /** `s[start:stop]`. */
  function Slice<T>(s: seq<T>, start: int, stop: int): (r: seq<T>)
    ensures |r| == SliceLength(|s|, start, stop)
    ensures forall k :: 0 <= k < |r| ==> r[k] == s[SliceIndex(start, |s|) + k]
  {
    var lo, hi := SliceIndex(start, |s|), SliceIndex(stop, |s|);
    if lo < hi then s[lo..hi] else []
  }

  function SliceLength(n: nat, start: int, stop: int): nat {
    var lo, hi := SliceIndex(start, n), SliceIndex(stop, n);
    if lo < hi then hi - lo else 0
  }

  /** Length left of an axis of length n after `[Border:n-Border]`: whatever n is,
      the negative stop of a short axis never lets anything through. */
  function TrimmedLength(n: nat): (r: nat)
    ensures r == if n > 2 * Border then n - 2 * Border else 0
  {
    SliceLength(n, Border, n - Border)
  }

  /** Shape of the trimmed image: both spatial axes trimmed, planes unchanged. */
  function TrimShape(s: Shape): (r: Shape)
    ensures r.channels == s.channels
    ensures r.height == if s.height > 2 * Border then s.height - 2 * Border else 0
    ensures r.width == if s.width > 2 * Border then s.width - 2 * Border else 0
  {
    Shape(TrimmedLength(s.height), TrimmedLength(s.width), s.channels)
  }

  /** Every row of img has the given width (a numpy image is rectangular). */
  predicate Rectangular<P>(img: seq<seq<P>>, width: nat) {
    forall i :: 0 <= i < |img| ==> |img[i]| == width
  }

  /**
    The border trim on an image of pixels: the result is the image with
    Border rows and columns removed on every side, pixel for pixel, so each
    pixel keeps all its colour planes.
  */
  function CropBorder<P>(img: seq<seq<P>>, width: nat): (r: seq<seq<P>>)
    requires Rectangular(img, width)
    ensures |r| == TrimmedLength(|img|)
    ensures Rectangular(r, TrimmedLength(width))
    ensures forall i, j :: 0 <= i < |r| && 0 <= j < |r[i]| ==> r[i][j] == img[i + Border][j + Border]
  {
    var rows := Slice(img, Border, |img| - Border);
    seq(|rows|, i requires 0 <= i < |rows| => Slice(rows[i], Border, width - Border))
  }
}
