/** Embedded cover images and the normalisation of the two declared-format
    conventions (the iTunes atom data type and the ID3 MIME type) onto one
    three-valued image format. */
module Artworks {
  import opened Text

  /** `ImageFormat`: UNKNOWN = 0, PNG = 1, JPEG = 2 in the source. */
  datatype ImageFormat = Unknown | Png | Jpeg

  /** One embedded image. `contents` is the hex rendering of the raw image
      bytes, kept opaque: only its equality matters to the classifier. */
  datatype Artwork = Artwork(imageFormat: ImageFormat, contents: string)

  /** `Artwork.ok`: the image is a JPEG. */
  predicate Ok(a: Artwork) {
    a.imageFormat == Jpeg
  }

  /** mutagen's `AtomDataType.JPEG` and `AtomDataType.PNG` codes. */
  const AtomJpeg: int := 13
  const AtomPng: int := 14

  /** `_atom_to_enum`: the JPEG and PNG atom data types map to their image
      formats, and every other data type maps to UNKNOWN. */
  function AtomToEnum(atomDataType: int): (f: ImageFormat)
    ensures f == Jpeg <==> atomDataType == AtomJpeg
    ensures f == Png <==> atomDataType == AtomPng
    ensures f == Unknown <==> atomDataType != AtomJpeg && atomDataType != AtomPng
  {
    if atomDataType == AtomJpeg then Jpeg
    else if atomDataType == AtomPng then Png
    else Unknown
  }

  /** `_parse_mime_type`: the lower-cased MIME type is searched for "jpeg"
      first and "png" second. */
  function ParseMimeType(mimeType: string): (f: ImageFormat)
    ensures f == Jpeg <==> Occurs(Lower(mimeType), "jpeg")
    ensures f == Png <==> !Occurs(Lower(mimeType), "jpeg") && Occurs(Lower(mimeType), "png")
    ensures f == Unknown <==> !Occurs(Lower(mimeType), "jpeg") && !Occurs(Lower(mimeType), "png")
  {
    var lowered := Lower(mimeType);
    if Contains(lowered, "jpeg") then Jpeg
    else if Contains(lowered, "png") then Png
    else Unknown
  }

  /** The MIME type is matched case-insensitively: upper-casing it first
      gives the same format. */
  lemma ParseMimeTypeIgnoresCase(mimeType: string)
    ensures ParseMimeType(Upper(mimeType)) == ParseMimeType(mimeType)
  {
    LowerOfUpper(mimeType);
  }

  /** "jpeg" wins over "png" wherever it appears: the format of a MIME type
      holding "jpeg" does not change when "png" is added on either side. */
  lemma {:induction false} JpegWinsOverPng(mimeType: string)
    requires Occurs(Lower(mimeType), "jpeg")
    ensures ParseMimeType(mimeType + "png") == Jpeg
    ensures ParseMimeType("PNG" + mimeType) == Jpeg
  {
    var i :| OccursAt(Lower(mimeType), "jpeg", i);
    LowerAppend(mimeType, "png");
    OccursAtAppend(Lower(mimeType), "jpeg", i, [], Lower("png"));
    assert [] + Lower(mimeType) + Lower("png") == Lower(mimeType + "png");
    LowerAppend("PNG", mimeType);
    OccursAtAppend(Lower(mimeType), "jpeg", i, Lower("PNG"), []);
    assert Lower("PNG") + Lower(mimeType) + [] == Lower("PNG" + mimeType);
  }

  /** Concrete MIME types as mutagen reports them. */
  lemma MimeTypeJpegExample()
    ensures ParseMimeType("image/JPEG") == Jpeg
  {
    var m := "image/JPEG";
    assert OccursAt(Lower(m), "jpeg", 6) by {
      assert Lower(m)[6..10] == [LowerChar('J'), LowerChar('P'), LowerChar('E'), LowerChar('G')];
    }
  }

  lemma MimeTypePngExample()
    ensures ParseMimeType("image/png") == Png
  {
    var png := "image/png";
    LowerOfLower(png);
    assert OccursAt(png, "png", 6);
    NotOccursByChar(png, "jpeg", 0);
  }

  /** "jpg" is not "jpeg": the common MIME type "image/jpg" is UNKNOWN. */
  lemma MimeTypeJpgIsUnknown()
    ensures ParseMimeType("image/jpg") == Unknown
  {
    var jpg := "image/jpg";
    assert IsLower(jpg);
    LowerOfLower(jpg);
    assert forall j :: 1 <= j <= 6 ==> jpg[j] != 'p';
    NotOccursByChar(jpg, "jpeg", 1);
    assert forall j :: 1 <= j <= 7 ==> jpg[j] != 'n';
    NotOccursByChar(jpg, "png", 1);
  }
}
