# ConvertToOmeTiff metadata and tag model

A Dafny model of the pure part of `convertToOmeTiff.py`, the script that turns a
whole-slide image (MIRAX `.mrxs`, Aperio `.svs`) into a pyramidal OME-TIFF. The
imaging library does the decoding, band handling, tiling and encoding. The script
itself does the following, and the model covers all of it:

- **Format selection.** The input format is the text after the last `.` of the
  input path. A path without a dot raises, so no file is written.
- **Metadata extraction** (`extractMetadata`). Only property names that contain
  `mirax.GENERAL` (for `mrxs`) or `aperio.` (for `svs`) are kept. Any other format
  gives an empty map. Each kept name is keyed by its text after the last `.`. The
  keys go into a Python dict: a repeated key keeps its first position and takes
  the latest value.
- **Annotation building** (the loop in `createOmeXml`). There is one `XMLAnnotation`
  per dict entry, in iteration order. Each has the ID `Annotation:<counter>`,
  where the counter starts at 0, and carries the entry's key and value.
- **Pixels descriptor and tags** (`main`). `SizeC` is the band count after the
  alpha band is dropped. `SizeX` is the width. `SizeY` and the `page-height`
  tag are the height taken before the bands are stacked into vertical planes.
  `SizeT = SizeZ = 1`, `DimensionOrder = "XYCZT"` and `Type = "uint8"`. The
  writer options are fixed: JPEG, 256×256 tiles, pyramid, sub-IFDs.

Files and modules:

- `wrappers.dfy` (`Wrappers`): `Option` and `Result`.
- `text.dfy` (`Text`): Python's substring test `p in s`, `s.rsplit(c, 1)`, and
  `str(n)` with its inverse.
- `ordered_maps.dfy` (`OrderedMaps`): the insertion-ordered dict as a sequence of
  pairs. `Put` is `d[k] = v`. `Build` is the insertion loop.
- `slide.dfy` (`Slide`): the image as an abstract record. It holds the width,
  height, band count, alpha flag, property names, and a total `get` function.
  The record also models the alpha drop and the band stacking.
- `metadata.dfy` (`Metadata`): `extractMetadata`.
- `ome_xml.dfy` (`OmeXml`): the document as a datatype, the annotation IDs, and
  the annotation loop.
- `convert.dfy` (`Convert`): the pipeline of `main`, up to the `tiffsave` call.

The script reads MIRAX metadata from the slide's own `mirax.GENERAL` properties. It has no
sidecar file, batch mode or compression flag.

## Model

| member | source | states |
|---|---|---|
| Text.ContainsIffOccurs | convertToOmeTiff.py:74-76 | The vendor test `marker in name` holds exactly when the marker occurs at some position of the name. It is a substring test, not a prefix test. |
| Text.RSplitOnce | convertToOmeTiff.py:78 | `rsplit(".", 1)` gives two parts exactly when the string has a dot. The string is the first part, a dot, then the second part, and the second part has no dot. |
| Text.RSplitOnceOfJoin | convertToOmeTiff.py:78 | Splitting `a + "." + b` with a dot-free `b` gives back `(a, b)`, so the split is at the last dot. |
| Text.DecimalRoundTrip | convertToOmeTiff.py:60 | Parsing `str(n)` gives back `n`. |
| Text.DecimalInjective | convertToOmeTiff.py:60 | Different counters have different decimal forms. |
| OrderedMaps.Put | convertToOmeTiff.py:80 | `d[k] = v` keeps an existing key at its position and appends a new key at the end. Afterwards `k` maps to `v` and every other key keeps its value. Unique keys stay unique, and no entry other than `(k, v)` is added. |
| OrderedMaps.BuildKeys | convertToOmeTiff.py:77-80 | After the insertion loop the dict has unique keys, and exactly the keys that were assigned. |
| OrderedMaps.BuildEntries | convertToOmeTiff.py:77-80 | Every entry of the dict is one of the assigned `(key, value)` pairs. |
| OrderedMaps.BuildLastWins | convertToOmeTiff.py:77-80 | Each key holds the value of its last assignment. |
| OrderedMaps.PutKeepsOrder | convertToOmeTiff.py:80 | One more assignment keeps the entries ordered by each key's first assignment. |
| OrderedMaps.BuildFirstOrder | convertToOmeTiff.py:77-80 | The entries appear in the order their keys were first assigned. |
| Metadata.VendorMarker | convertToOmeTiff.py:73-76 | Only `mrxs` and `svs` select a marker, and each marker contains a dot. |
| Metadata.Retained | convertToOmeTiff.py:74-76 | The filter keeps exactly the property names that contain the marker. |
| Metadata.RetainedSingle | convertToOmeTiff.py:74-76 | One property name is kept when it contains the marker and dropped otherwise. |
| Metadata.RetainedAppend | convertToOmeTiff.py:74-76 | Filtering two runs of names one after the other gives the two filtered runs in the same order: the filter keeps the order of `get_fields()`. |
| Metadata.RetainedHaveDot | convertToOmeTiff.py:74-78 | Every kept name contains a dot, so `rsplit(".", 1)[1]` in the loop never raises. |
| Metadata.FieldKey | convertToOmeTiff.py:78 | The key is the dot-free text after the name's last dot. |
| Metadata.ExtractMetadata | convertToOmeTiff.py:70-81 | The extracted dict has unique keys. Any format other than `mrxs` or `svs` gives the empty dict. |
| Metadata.ExtractFilter | convertToOmeTiff.py:71-76 | `mrxs` selects `mirax.GENERAL` and `svs` selects `aperio.`. A name contributes exactly when the marker occurs anywhere in it. |
| Metadata.ExtractKeysDotFree | convertToOmeTiff.py:77-78 | No extracted key contains a dot. |
| Metadata.ExtractComplete | convertToOmeTiff.py:77-80 | Every contributing name has its key in the dict. |
| Metadata.ExtractEntriesSound | convertToOmeTiff.py:77-80 | Every entry is some contributing name's key paired with `im.get` of that name. |
| Metadata.ExtractLastWins | convertToOmeTiff.py:77-80 | When contributing names share a key, the dict holds the value of the last such name. |
| Metadata.ExtractFirstOrder | convertToOmeTiff.py:77-80 | Entries are ordered by the first contributing name of each key. |
| OmeXml.AnnotationIdRoundTrip | convertToOmeTiff.py:60 | The ID `"Annotation:" + str(i)` reads back as `i`. |
| OmeXml.AnnotationIdsDistinct | convertToOmeTiff.py:57-61 | Different counter values give different annotation IDs. |
| OmeXml.CreateAnnotations | convertToOmeTiff.py:57-67 | The loop makes exactly one annotation per entry, in iteration order. Annotation `i` has ID `Annotation:i` and carries entry `i`'s key and value. |
| OmeXml.AnnotationsReadBack | convertToOmeTiff.py:58-67 | Reading the annotations back gives the dict unchanged. The ID of annotation `i` names `i`, and no two IDs are equal. |
| OmeXml.CreateOmeXml | convertToOmeTiff.py:52-68 | The document keeps the template's image element. Its annotations read back as the extracted metadata. Annotation `i` has the ID `"Annotation:" + str(i)`, which reads back as `i`. |
| Convert.InputFormat | convertToOmeTiff.py:44 | Format selection fails exactly when the path has no dot. Otherwise the format is the dot-free text after the last dot. |
| Convert.InputFormatOfJoin | convertToOmeTiff.py:44 | For `base + "." + format` with a dot-free format, the selected format is `format`. |
| Convert.Convert | convertToOmeTiff.py:10-50 | Conversion fails exactly when the path has no dot. On success, `SizeC` is the band count minus one with alpha and the raw count without. `SizeX` is the width. `SizeY` and `page-height` are the original height. The remaining attributes are the fixed constants, including `ID="Pixels:0"`. The writer options are JPEG, 256×256 tiles, pyramid and sub-IFDs. The saved image has one band and the same width, and its height is `SizeC` planes of `page-height` rows each. The annotations read back as the metadata of the input image. |

## Left out

- The imaging library's operations (`new_from_file`, `hasalpha`, `bandsplit`, `arrayjoin`, `copy`, `set_type`, `tiffsave`): they are foreign code. The image is an abstract record. The alpha flag is an input. Stacking is modelled only by its effect on width, height and band count. The save is the `SaveRequest` value it would be called with.
- Property carry-over: the model assumes, as libvips does, that extracting bands, joining planes and copying keep the first input's property list. So `extractMetadata` on the stacked copy sees the original image's properties.
- Property values: `im.get` is modelled as returning a string. Properties of other types are not modelled.
- ElementTree parsing and serialization: the namespace registration, the XML template text, the `MetadataOnly` element, character escaping and the UTF-8 bytes are library behaviour. The document is a datatype, and "parseable back" is stated as `Entries` reading back the key/value pairs.
- Command-line handling: `sys.argv` and the `__main__` entry point are plumbing. The input path is a parameter, and the output path is not modelled.
- Reading an INI sidecar and the directory batch mode: the code does neither.
