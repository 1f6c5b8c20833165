/**
 The conversion pipeline of `main`: drop the alpha band, record height and band
 count, stack the bands as planes, tag the copy with `page-height` and the OME-XML
 description, and hand it to the TIFF writer with fixed options.
 */
module Convert {
  import opened Wrappers
  import opened Text
  import opened Slide
  import opened Metadata
  import opened OmeXml

  /** Why a conversion stops before anything is written. */
  datatype ConvertError =
    | NoExtension(path: string)  // `rsplit(".", 1)[1]` raises on a path without a dot

  /** The options passed to `tiffsave`. */
  datatype SaveOptions = SaveOptions(
    compression: string,
    tile: bool,
    tileWidth: nat,
    tileHeight: nat,
    pyramid: bool,
    subifd: bool)

  const JpegPyramid := SaveOptions("jpeg", true, 256, 256, true, true)

  /** What `tiffsave` is called with: the tagged image and the writer options. */
  datatype SaveRequest = SaveRequest(
    image: Image,
    pageHeight: int,
    description: Document,
    options: SaveOptions)

  /** `path.rsplit(".", 1)[1]`: the text after the last dot of the input path. */
  function InputFormat(path: string): (r: Result<string, ConvertError>)
    ensures r.Failure? <==> '.' !in path
    ensures r.Success? ==> '.' !in r.value
    ensures r.Success? ==>
      |r.value| < |path| && path[|path| - |r.value| - 1] == '.' && path[|path| - |r.value|..] == r.value
  {
    match RSplitOnce(path, '.')
    case None => Failure(NoExtension(path))
    case Some(parts) =>
      assert path[|path| - |parts.1| - 1] == (parts.0 + ['.'] + parts.1)[|parts.0|];
      assert path[|path| - |parts.1|..] == (parts.0 + ['.'] + parts.1)[|parts.0| + 1..];
      Success(parts.1)
  }

  /** The format is read back from any path built as `base + "." + format` with a dot-free format. */
  lemma InputFormatOfJoin(base: string, format: string)
    requires '.' !in format
    ensures InputFormat(base + "." + format) == Success(format)
  {
    RSplitOnceOfJoin(base, '.', format);
  }

  /** The whole of `main` for input image `img` read from `path`. */
  function Convert(img: Image, path: string): (r: Result<SaveRequest, ConvertError>)
    requires ValidImage(img)
    ensures r.Failure? <==> '.' !in path
    ensures r.Success? ==>
      var px := r.value.description.image.pixels;
      && px.sizeC == (if img.hasAlpha then img.bands - 1 else img.bands)
      && px.sizeX == img.width
      && px.sizeY == img.height
      && r.value.pageHeight == img.height
      && px.sizeT == 1 && px.sizeZ == 1
      && px.dimensionOrder == "XYCZT" && px.pixelType == "uint8" && px.id == "Pixels:0"
      && r.value.options == JpegPyramid
      && r.value.image.bands == 1
      && r.value.image.width == px.sizeX
      && r.value.image.height == r.value.pageHeight * px.sizeC
    ensures r.Success? ==>
      Entries(r.value.description.annotations) == ExtractMetadata(img, InputFormat(path).value)
  {
    var flat := DropAlpha(img);
    var imageHeight := flat.height;
    var imageBands := flat.bands;
    var stacked := StackBands(flat);
    var pixels := Pixels("XYCZT", "Pixels:0", imageBands, 1, stacked.width, imageHeight, 1, "uint8");
    match InputFormat(path)
    case Failure(e) => Failure(e)
    case Success(format) =>
      assert ExtractMetadata(stacked, format) == ExtractMetadata(img, format);
      var doc := CreateOmeXml(stacked, ImageElement("Image:0", pixels), format);
      Success(SaveRequest(stacked, imageHeight, doc, JpegPyramid))
  }
}
