/**
 The decoded slide as the converter sees it: dimensions, band count, whether the
 last band is alpha, and the image's property list (names in order, and `get`).
 Decoding itself belongs to the imaging library and is not modelled.
 */
module Slide {

  datatype Image = Image(
    width: nat,
    height: nat,
    bands: nat,
    hasAlpha: bool,
    fields: seq<string>,
    get: string -> string)

  /**
   What the imaging library guarantees of a decoded image: at least one band, and
   an alpha band only next to at least one colour band.
   */
  predicate ValidImage(img: Image) {
    img.bands >= 1 && (img.hasAlpha ==> img.bands >= 2)
  }

  /** `im[:-1]` when the image has alpha: the last band is removed, the properties stay. */
  function DropAlpha(img: Image): Image
    requires ValidImage(img)
  {
    if img.hasAlpha then img.(bands := img.bands - 1, hasAlpha := false) else img
  }

  /**
   `arrayjoin(im.bandsplit(), across=1)`: each band becomes a one-band plane and the
   planes are stacked vertically; the first plane's properties are kept.
   */
  function StackBands(img: Image): Image {
    img.(height := img.height * img.bands, bands := 1, hasAlpha := false)
  }
}
