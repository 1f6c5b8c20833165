/**
 The OME-XML document the converter embeds, as a tree rather than bytes: the
 `Image`/`Pixels` descriptor and one `XMLAnnotation` per metadata entry.
 */
module OmeXml {
  import opened Wrappers
  import opened Text
  import opened Slide
  import opened Metadata

  /** The `Pixels` element of the template. */
  datatype Pixels = Pixels(
    dimensionOrder: string,
    id: string,
    sizeC: nat,
    sizeT: nat,
    sizeX: nat,
    sizeY: nat,
    sizeZ: nat,
    pixelType: string)

  /** The `Image` element, holding the pixels descriptor. */
  datatype ImageElement = ImageElement(id: string, pixels: Pixels)

  /** An `XMLAnnotation` with its `ID` and its `OriginalMetadata` key and value. */
  datatype Annotation = XmlAnnotation(id: string, key: string, value: string)

  /** The `OME` root: the image and its `StructuredAnnotations` children, in document order. */
  datatype Document = Document(image: ImageElement, annotations: seq<Annotation>)

  const AnnotationPrefix := "Annotation:"

  /** `"Annotation:" + str(counter)`. */
  function AnnotationId(i: nat): string {
    AnnotationPrefix + Decimal(i)
  }

  /** The counter value an annotation ID was made from, if it has the annotation form. */
  function ParseAnnotationId(id: string): Option<nat> {
    if AnnotationPrefix <= id then ParseDecimal(id[|AnnotationPrefix|..]) else None
  }

  /** Every annotation ID reads back as the counter it was made from. */
  lemma AnnotationIdRoundTrip(i: nat)
    ensures ParseAnnotationId(AnnotationId(i)) == Some(i)
  {
    DecimalRoundTrip(i);
    assert AnnotationId(i)[|AnnotationPrefix|..] == Decimal(i);
  }

  /** Distinct counters give distinct annotation IDs. */
  lemma AnnotationIdsDistinct(i: nat, j: nat)
    requires i != j
    ensures AnnotationId(i) != AnnotationId(j)
  {
    DecimalInjective(i, j);
    assert AnnotationId(i)[|AnnotationPrefix|..] == Decimal(i);
    assert AnnotationId(j)[|AnnotationPrefix|..] == Decimal(j);
  }

  /** The annotation list for a metadata map: entry `i` becomes annotation `i`. */
  function Annotations(md: seq<(string, string)>): seq<Annotation> {
    seq(|md|, i requires 0 <= i < |md| => XmlAnnotation(AnnotationId(i), md[i].0, md[i].1))
  }

  /** The key/value pairs a reader recovers from the annotation list, in document order. */
  function Entries(anns: seq<Annotation>): seq<(string, string)> {
    seq(|anns|, i requires 0 <= i < |anns| => (anns[i].key, anns[i].value))
  }

  /**
   The annotation loop of `createOmeXml`: one annotation per entry in iteration
   order, the counter starting at 0 and going up by one per annotation.
   */
  method CreateAnnotations(md: seq<(string, string)>) returns (anns: seq<Annotation>)
    ensures |anns| == |md|
    ensures forall i :: 0 <= i < |md| ==> anns[i] == XmlAnnotation(AnnotationId(i), md[i].0, md[i].1)
    ensures anns == Annotations(md)
  {
    anns := [];
    var counter: nat := 0;
    for n := 0 to |md|
      invariant counter == n
      invariant |anns| == n
      invariant forall i :: 0 <= i < n ==> anns[i] == XmlAnnotation(AnnotationId(i), md[i].0, md[i].1)
    {
      var (key, value) := md[n];
      var annotation := XmlAnnotation(AnnotationId(counter), key, value);
      counter := counter + 1;
      anns := anns + [annotation];
    }
  }

  /**
   Reading the annotations back gives the metadata map unchanged, in order, and the
   ID of annotation `i` names `i`: the IDs are 0..n-1 with no gap or repeat.
   */
  lemma AnnotationsReadBack(md: seq<(string, string)>)
    ensures Entries(Annotations(md)) == md
    ensures forall i :: 0 <= i < |md| ==> ParseAnnotationId(Annotations(md)[i].id) == Some(i)
    ensures forall i, j :: 0 <= i < j < |md| ==> Annotations(md)[i].id != Annotations(md)[j].id
  {
    forall i | 0 <= i < |md|
      ensures ParseAnnotationId(Annotations(md)[i].id) == Some(i)
    {
      AnnotationIdRoundTrip(i);
    }
    forall i, j | 0 <= i < j < |md|
      ensures Annotations(md)[i].id != Annotations(md)[j].id
    {
      AnnotationIdsDistinct(i, j);
    }
  }

  /** `createOmeXml(im, initialXml, inputFormat)`: the template's image plus the annotations. */
  function CreateOmeXml(img: Image, image: ImageElement, format: string): (doc: Document)
    ensures doc.image == image
    ensures Entries(doc.annotations) == ExtractMetadata(img, format)
    ensures forall i :: 0 <= i < |doc.annotations| ==> doc.annotations[i].id == AnnotationId(i)
    ensures forall i :: 0 <= i < |doc.annotations| ==> ParseAnnotationId(doc.annotations[i].id) == Some(i)
  {
    var md := ExtractMetadata(img, format);
    AnnotationsReadBack(md);
    Document(image, Annotations(md))
  }
}
