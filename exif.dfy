/** The metadata record and the two extractors (`extract_exif_jpeg`,
    `extract_exif_cr2`). The decoding libraries are not modelled: what they
    return for an attachment's bytes is an input, `Decoded`, which is either
    their tag table or `Failed` when they raise. */
module Exif {

  import opened Wrappers
  import opened Numerals
  import opened Utf8
  import opened Text

  /** The sentinel for a field with no value, spelled as the code spells it. */
  const Unknown: string := "Unknown"

  /** What a decoding library gave back: its result, or an exception. */
  datatype Decoded<T> = Failed | Loaded(value: T)

  /** A value in piexif's tag table, as the Python value it is: a byte string,
      a 2-tuple (a rational, numerator and denominator), an int, or any other
      object given by its `str()` and its truth value. `Absent` is the `None`
      that `dict.get` gives for a missing tag. */
  datatype TagValue =
    | Absent
    | Bytes(data: seq<byte>)
    | Pair(first: int, second: int)
    | Integer(n: int)
    | Other(text: string, truthy: bool)

  /** The rendering of a 2-tuple: `f"{v[0]}/{v[1]}"`, with no reduction. */
  function RenderPair(a: int, b: int): string {
    IntToString(a) + "/" + IntToString(b)
  }

  /** `get`'s coercion of one tag value to display text, tried in the code's
      order: bytes, then 2-tuple, then any truthy value, then "Unknown". */
  function Coerce(v: TagValue): string {
    match v
    case Bytes(data) => DecodeIgnore(data)
    case Pair(a, b) => RenderPair(a, b)
    case Integer(n) => if n != 0 then IntToString(n) else Unknown
    case Other(text, truthy) => if truthy then text else Unknown
    case Absent => Unknown
  }

  /** The fields of the record, in the order the code builds it. */
  datatype Field = CameraModel | Iso | Aperture | ShutterSpeed

  const FieldOrder: seq<Field> := [CameraModel, Iso, Aperture, ShutterSpeed]

  /** The dictionary key of each field. */
  function KeyOf(f: Field): string {
    match f
    case CameraModel => "Camera Model"
    case Iso => "ISO"
    case Aperture => "Aperture"
    case ShutterSpeed => "Shutter Speed"
  }

  /** The four-key dictionary both extractors return; a datatype, so that no
      key can be missing. */
  datatype Record = Record(cameraModel: string, iso: string, aperture: string, shutterSpeed: string)
  {
    function Get(f: Field): string {
      match f
      case CameraModel => cameraModel
      case Iso => iso
      case Aperture => aperture
      case ShutterSpeed => shutterSpeed
    }

    /** `record[KeyOf(f)] = v`: the other three fields are kept. */
    function With(f: Field, v: string): (r: Record)
      ensures r.Get(f) == v
      ensures forall g :: g != f ==> r.Get(g) == Get(g)
    {
      match f
      case CameraModel => this.(cameraModel := v)
      case Iso => this.(iso := v)
      case Aperture => this.(aperture := v)
      case ShutterSpeed => this.(shutterSpeed := v)
    }

    /** `record.items()`, in insertion order. */
    function Items(): (items: seq<(string, string)>)
      ensures |items| == |FieldOrder|
      ensures forall i :: 0 <= i < |items| ==> items[i] == (KeyOf(FieldOrder[i]), Get(FieldOrder[i]))
    {
      [("Camera Model", cameraModel), ("ISO", iso), ("Aperture", aperture), ("Shutter Speed", shutterSpeed)]
    }
  }

  /** The record both `except` branches return. */
  const AllUnknown: Record := Record(Unknown, Unknown, Unknown, Unknown)

  /** piexif's tag table: IFD name to tag number to value. */
  type ExifDict = map<string, map<int, TagValue>>

  /** piexif's tag numbers, from the TIFF and Exif 2.3 tag tables. */
  const ModelTag: int := 0x0110
  const IsoSpeedRatingsTag: int := 0x8827
  const FNumberTag: int := 0x829D
  const ExposureTimeTag: int := 0x829A

  /** The IFD and tag number `extract_exif_jpeg` reads for each field. */
  function JpegLocation(f: Field): (string, int) {
    match f
    case CameraModel => ("0th", ModelTag)
    case Iso => ("Exif", IsoSpeedRatingsTag)
    case Aperture => ("Exif", FNumberTag)
    case ShutterSpeed => ("Exif", ExposureTimeTag)
  }

  /** `exif_dict.get(section, {}).get(tag)`. */
  function TagAt(d: ExifDict, section: string, tag: int): TagValue {
    if section in d && tag in d[section] then d[section][tag] else Absent
  }

  /** `extract_exif_jpeg`: each field is its coerced tag, and a failure to open
      the image or load its EXIF block degrades the whole record. */
  function ExtractJpeg(loaded: Decoded<ExifDict>): (r: Record)
    ensures loaded.Failed? ==> r == AllUnknown
    ensures loaded.Loaded? ==> forall f ::
      r.Get(f) == Coerce(TagAt(loaded.value, JpegLocation(f).0, JpegLocation(f).1))
  {
    match loaded
    case Failed => AllUnknown
    case Loaded(d) =>
      Record(
        Coerce(TagAt(d, "0th", ModelTag)),
        Coerce(TagAt(d, "Exif", IsoSpeedRatingsTag)),
        Coerce(TagAt(d, "Exif", FNumberTag)),
        Coerce(TagAt(d, "Exif", ExposureTimeTag)))
  }

  /** exifread's tag table, each tag given by its `str()`. */
  type RawTags = map<string, string>

  /** The exifread tag name `extract_exif_cr2` reads for each field. */
  function RawTagName(f: Field): string {
    match f
    case CameraModel => "Image Model"
    case Iso => "EXIF ISOSpeedRatings"
    case Aperture => "EXIF FNumber"
    case ShutterSpeed => "EXIF ExposureTime"
  }

  /** `lookup`: `str(tags.get(name, "Unknown"))`. */
  function Lookup(tags: RawTags, name: string): string {
    if name in tags then tags[name] else Unknown
  }

  /** `extract_exif_cr2`: each field is its tag's text, or "Unknown" for a
      missing tag, and a failure to read the tag table degrades the whole
      record. */
  function ExtractCr2(loaded: Decoded<RawTags>): (r: Record)
    ensures loaded.Failed? ==> r == AllUnknown
    ensures loaded.Loaded? ==> forall f ::
      r.Get(f) == if RawTagName(f) in loaded.value then loaded.value[RawTagName(f)] else Unknown
  {
    match loaded
    case Failed => AllUnknown
    case Loaded(tags) =>
      Record(
        Lookup(tags, "Image Model"),
        Lookup(tags, "EXIF ISOSpeedRatings"),
        Lookup(tags, "EXIF FNumber"),
        Lookup(tags, "EXIF ExposureTime"))
  }

  /** Empty bytes are the empty string, not "Unknown"; an absent tag and the
      falsy values `0` and `()` are "Unknown"; `(0, 0)` is "0/0". */
  lemma CoerceEdgeCases()
    ensures Coerce(Bytes([])) == ""
    ensures Coerce(Absent) == Unknown
    ensures Coerce(Integer(0)) == Unknown
    ensures Coerce(Other("()", false)) == Unknown
    ensures Coerce(Pair(0, 0)) == "0/0"
    ensures Coerce(Pair(1, 200)) == "1/200"
  {
    assert NatToString(200) == NatToString(20) + ['0'];
    assert NatToString(20) == NatToString(2) + ['0'];
  }

  /** A 2-tuple's rendering gives back both components exactly: no two
      different pairs render alike, so `(1, 2)` and `(2, 4)` stay apart. */
  lemma RenderPairInjective(a: int, b: int, c: int, d: int)
    requires RenderPair(a, b) == RenderPair(c, d)
    ensures a == c && b == d
  {
    IntToStringShape(a);
    IntToStringShape(c);
    NoSlash(IntToString(a));
    NoSlash(IntToString(c));
    SplitAtSlash(IntToString(a), IntToString(b), IntToString(c), IntToString(d));
    IntToStringInjective(a, c);
    IntToStringInjective(b, d);
  }

  /** Text joined at a '/' that neither left part holds splits back apart. */
  lemma SplitAtSlash(s: string, r: string, t: string, u: string)
    requires forall k :: 0 <= k < |s| ==> s[k] != '/'
    requires forall k :: 0 <= k < |t| ==> t[k] != '/'
    requires s + "/" + r == t + "/" + u
    ensures s == t && r == u
  {
    var x := s + "/" + r;
    SlashAfter(s, r);
    SlashAfter(t, u);
    assert s == x[..|s|];
    assert t == x[..|t|];
    assert r == x[|s| + 1..];
    assert u == x[|t| + 1..];
  }

  /** The first '/' of `s + "/" + rest` is the one after `s` when `s` has none. */
  lemma SlashAfter(s: string, rest: string)
    requires forall k :: 0 <= k < |s| ==> s[k] != '/'
    ensures IndexOf(s + "/" + rest, '/') == |s|
  {
    var x := s + "/" + rest;
    assert x[|s|] == '/';
    assert forall k :: 0 <= k < |s| ==> x[k] == s[k];
  }

  lemma NoSlash(s: string)
    requires forall k :: 0 <= k < |s| ==> s[k] == '-' || IsDigit(s[k])
    ensures forall k :: 0 <= k < |s| ==> s[k] != '/'
  {
  }

  /** "Unknown" comes out of a non-bytes value only when the value is absent
      or falsy (or is an object whose text is "Unknown"): a pair or a non-zero
      int always renders as digits. */
  lemma CoerceUnknownCases(v: TagValue)
    requires !v.Bytes?
    ensures Coerce(v) == Unknown <==>
      v.Absent? || v == Integer(0) || (v.Other? && (!v.truthy || v.text == Unknown))
  {
    match v
    case Pair(a, b) =>
      IntToStringShape(a);
      assert Coerce(v)[0] != 'U';
    case Integer(n) =>
      if n != 0 {
        IntToStringShape(n);
        assert Coerce(v)[0] != 'U';
      }
    case _ =>
  }

  /** Text stored as bytes comes back unchanged, whatever its characters. */
  lemma CoerceTextBytes(s: string)
    ensures Coerce(Bytes(Encode(s))) == s
  {
    DecodeEncode(s);
  }

  /** A file without an EXIF block reads as all "Unknown", in both extractors. */
  lemma NoMetadataAllUnknown()
    ensures ExtractJpeg(Loaded(map[])) == AllUnknown
    ensures ExtractCr2(Loaded(map[])) == AllUnknown
  {
  }
}
