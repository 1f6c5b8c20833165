/**
 `extractMetadata`: the vendor properties of an image, as an insertion-ordered
 map from the last dot-separated component of the property name to its value.
 */
module Metadata {
  import opened Wrappers
  import opened Text
  import opened OrderedMaps
  import opened Slide

  /** Property names of MIRAX slides are kept when they contain this text. */
  const MiraxMarker := "mirax.GENERAL"
  /** Property names of Aperio slides are kept when they contain this text. */
  const AperioMarker := "aperio."

  /** The text a property name must contain for the given input format, if the format has one. */
  function VendorMarker(format: string): (r: Option<string>)
    ensures r.Some? <==> format == "mrxs" || format == "svs"
    ensures r.Some? ==> '.' in r.value
  {
    if format == "mrxs" then
      assert MiraxMarker[5] == '.';
      Some(MiraxMarker)
    else if format == "svs" then
      assert AperioMarker[6] == '.';
      Some(AperioMarker)
    else None
  }

  /** `filter(lambda item: marker in item, fields)`: the names containing `marker`, in order. */
  function Retained(fields: seq<string>, marker: string): (r: seq<string>)
    ensures forall f :: f in r <==> f in fields && Contains(f, marker)
    ensures |r| <= |fields|
  {
    if |fields| == 0 then []
    else
      var rest := Retained(fields[1..], marker);
      assert fields == [fields[0]] + fields[1..];
      if Contains(fields[0], marker) then [fields[0]] + rest else rest
  }

  /** A single name is kept exactly when it contains the marker. */
  lemma RetainedSingle(f: string, marker: string)
    ensures Retained([f], marker) == if Contains(f, marker) then [f] else []
  {
  }

  /** The filter works name by name and keeps the order of the property list. */
  lemma {:induction false} RetainedAppend(a: seq<string>, b: seq<string>, marker: string)
    ensures Retained(a + b, marker) == Retained(a, marker) + Retained(b, marker)
  {
    if |a| > 0 {
      RetainedAppend(a[1..], b, marker);
      assert (a + b)[1..] == a[1..] + b;
      assert (a + b)[0] == a[0];
    } else {
      assert a + b == b;
    }
  }

  /** A retained name always contains a dot, since both markers do. */
  lemma RetainedHaveDot(fields: seq<string>, marker: string)
    requires '.' in marker
    ensures forall f :: f in Retained(fields, marker) ==> '.' in f
  {
    forall f | f in Retained(fields, marker)
      ensures '.' in f
    {
      ContainedCharacter(f, marker, '.');
    }
  }

  /** `name.rsplit(".", 1)[1]`: the text after the last dot of the name. */
  function FieldKey(name: string): (key: string)
    requires '.' in name
    ensures '.' !in key
    ensures |key| < |name| && name[|name| - |key| - 1] == '.' && name[|name| - |key|..] == key
  {
    var parts := RSplitOnce(name, '.').value;
    assert name[|name| - |parts.1| - 1] == (parts.0 + ['.'] + parts.1)[|parts.0|];
    assert name[|name| - |parts.1|..] == (parts.0 + ['.'] + parts.1)[|parts.0| + 1..];
    parts.1
  }

  /** The `(key, im.get(item))` pairs in the order the loop assigns them. */
  function MetadataPairs(names: seq<string>, get: string -> string): seq<(string, string)>
    requires forall f :: f in names ==> '.' in f
  {
    seq(|names|, i requires 0 <= i < |names| => (FieldKey(names[i]), get(names[i])))
  }

  /** The dictionary `extractMetadata(im, inputFormat)` returns. */
  function ExtractMetadata(img: Image, format: string): (md: seq<(string, string)>)
    ensures UniqueKeys(md)
    ensures !(format == "mrxs" || format == "svs") ==> md == []
  {
    match VendorMarker(format)
    case None => []
    case Some(marker) =>
      var names := Retained(img.fields, marker);
      RetainedHaveDot(img.fields, marker);
      var ps := MetadataPairs(names, img.get);
      BuildKeys(ps);
      Build(ps)
  }

  /** The keys of the retained names, one per name, in order. */
  function NameKeys(names: seq<string>): seq<string>
    requires forall f :: f in names ==> '.' in f
  {
    seq(|names|, i requires 0 <= i < |names| => FieldKey(names[i]))
  }

  /**
   Which names contribute: for `mrxs` and `svs` exactly the property names that
   contain the vendor marker somewhere, not necessarily at the start.
   */
  lemma ExtractFilter(img: Image, format: string, marker: string)
    requires VendorMarker(format) == Some(marker)
    ensures format == "mrxs" ==> marker == "mirax.GENERAL"
    ensures format == "svs" ==> marker == "aperio."
    ensures forall f :: f in Retained(img.fields, marker) <==>
      f in img.fields && exists i: nat :: OccursAt(f, marker, i)
  {
    forall f
      ensures f in Retained(img.fields, marker) <==> f in img.fields && exists i: nat :: OccursAt(f, marker, i)
    {
      ContainsIffOccurs(f, marker);
    }
  }

  /** No key of the extracted map contains a dot. */
  lemma {:induction false} ExtractKeysDotFree(img: Image, format: string)
    ensures forall i :: 0 <= i < |ExtractMetadata(img, format)| ==> '.' !in ExtractMetadata(img, format)[i].0
  {
    var md := ExtractMetadata(img, format);
    if marker :| VendorMarker(format) == Some(marker) {
      var names := Retained(img.fields, marker);
      RetainedHaveDot(img.fields, marker);
      var ps := MetadataPairs(names, img.get);
      assert md == Build(ps);
      BuildEntries(ps);
      forall i | 0 <= i < |md|
        ensures '.' !in md[i].0
      {
        assert md[i] in ps;
        var j :| 0 <= j < |ps| && ps[j] == md[i];
        assert ps[j].0 == FieldKey(names[j]);
      }
    }
  }

  /** Every contributing property name has its key in the extracted map. */
  lemma ExtractComplete(img: Image, format: string, marker: string)
    requires VendorMarker(format) == Some(marker)
    ensures forall f :: f in img.fields && Contains(f, marker) ==>
      '.' in f && FieldKey(f) in Keys(ExtractMetadata(img, format))
  {
    var names := Retained(img.fields, marker);
    RetainedHaveDot(img.fields, marker);
    var ps := MetadataPairs(names, img.get);
    BuildKeys(ps);
    forall f | f in img.fields && Contains(f, marker)
      ensures '.' in f && FieldKey(f) in Keys(Build(ps))
    {
      var j :| 0 <= j < |names| && names[j] == f;
      assert Keys(ps)[j] == FieldKey(f);
    }
  }

  /** Every entry is some contributing property's key together with that property's value. */
  lemma {:induction false} ExtractEntriesSound(img: Image, format: string, marker: string)
    requires VendorMarker(format) == Some(marker)
    ensures forall e :: e in ExtractMetadata(img, format) ==>
      exists f :: f in img.fields && Contains(f, marker) && '.' in f && FieldKey(f) == e.0 && img.get(f) == e.1
  {
    var names := Retained(img.fields, marker);
    RetainedHaveDot(img.fields, marker);
    var ps := MetadataPairs(names, img.get);
    BuildEntries(ps);
    forall e | e in ExtractMetadata(img, format)
      ensures exists f :: f in img.fields && Contains(f, marker) && '.' in f && FieldKey(f) == e.0 && img.get(f) == e.1
    {
      var j :| 0 <= j < |ps| && ps[j] == e;
      assert names[j] in names;
    }
  }

  /**
   When two contributing names share a key, the later one's value wins: the value
   under each key is that of the last contributing name carrying it.
   */
  lemma ExtractLastWins(img: Image, format: string, marker: string, names: seq<string>)
    requires VendorMarker(format) == Some(marker)
    requires names == Retained(img.fields, marker)
    ensures forall f :: f in names ==> '.' in f
    ensures forall i :: 0 <= i < |names| && (forall j :: i < j < |names| ==> FieldKey(names[j]) != FieldKey(names[i])) ==>
      Get(ExtractMetadata(img, format), FieldKey(names[i])) == Some(img.get(names[i]))
  {
    RetainedHaveDot(img.fields, marker);
    var ps := MetadataPairs(names, img.get);
    BuildLastWins(ps);
    forall i | 0 <= i < |names| && (forall j :: i < j < |names| ==> FieldKey(names[j]) != FieldKey(names[i]))
      ensures Get(ExtractMetadata(img, format), FieldKey(names[i])) == Some(img.get(names[i]))
    {
      assert IsLastOccurrence(ps, i);
    }
  }

  /**
   Entries are ordered by the first contributing name of each key: a key whose
   later name overwrites the value keeps the position of its first name.
   */
  lemma {:induction false} ExtractFirstOrder(img: Image, format: string, marker: string, names: seq<string>)
    requires VendorMarker(format) == Some(marker)
    requires names == Retained(img.fields, marker)
    ensures forall f :: f in names ==> '.' in f
    ensures OrderedBy(Keys(ExtractMetadata(img, format)), NameKeys(names))
  {
    RetainedHaveDot(img.fields, marker);
    var ps := MetadataPairs(names, img.get);
    BuildFirstOrder(ps);
    assert Keys(ps) == NameKeys(names);
  }
}
