/** One audio file as the album audit sees it, and the per-song predicates
    of `Song`. */
module Songs {
  import opened Wrappers
  import opened Artworks

  /** `Song`: the file name, the iTunes purchaser id (`apID`) if the file
      has one, the embedded covers in tag order, and the message of the
      exception raised while opening the file, if any. A song whose file
      could not be opened keeps no covers and no purchaser id. */
  datatype Song = Song(
    fileName: string,
    purchasedBy: Option<string>,
    covers: seq<Artwork>,
    error: Option<string>)

  /** Songs built by the parser: a failed open leaves nothing else set. */
  predicate WellFormed(s: Song) {
    s.error.Some? ==> s.covers == [] && s.purchasedBy.None?
  }

  /** `Song.purchased`: Python truthiness of the purchaser id, so an empty
      id counts as not purchased. */
  predicate Purchased(s: Song) {
    s.purchasedBy.Some? && s.purchasedBy.value != ""
  }

  /** `Song.has_cover`: the cover list is non-empty. */
  predicate HasCover(s: Song) {
    |s.covers| > 0
  }

  /** `Song.is_valid_audio`: opening the file raised nothing. */
  predicate IsValidAudio(s: Song) {
    s.error.None?
  }

  /** `Song.artwork_ok` as written. Its last conjunct is the bound method
      `covers[0].ok`, never called; a bound method is always truthy, so
      the conjunct adds nothing and the cover's format is never looked at. */
  function ArtworkOkAsWritten(s: Song): (ok: bool)
    ensures ok <==> s.error.None? && |s.covers| == 1
    ensures ok ==> HasCover(s)
  {
    var boundMethodIsTruthy := true;
    IsValidAudio(s) && |s.covers| == 1 && boundMethodIsTruthy
  }

  /** `Song.artwork_ok` as evidently intended, with `covers[0].ok()`
      called: exactly one cover and that cover is a JPEG. */
  function ArtworkOk(s: Song): (ok: bool)
    ensures ok <==> ArtworkOkAsWritten(s) && s.covers[0].imageFormat == Jpeg
  {
    IsValidAudio(s) && |s.covers| == 1 && Artworks.Ok(s.covers[0])
  }

  /** Replaces the format of every cover, keeping the contents. */
  function Reformat(covers: seq<Artwork>, f: ImageFormat): (r: seq<Artwork>)
    ensures |r| == |covers|
    ensures forall i :: 0 <= i < |r| ==> r[i] == Artwork(f, covers[i].contents)
  {
    seq(|covers|, i requires 0 <= i < |covers| => Artwork(f, covers[i].contents))
  }

  /** As written, `artwork_ok` cannot tell a PNG or UNKNOWN cover from a
      JPEG one: changing every cover's format never changes the verdict,
      whereas the intended predicate rejects any non-JPEG format. So the
      as-written test accepts exactly the songs that would pass the
      intended one if their covers were JPEGs. */
  lemma ArtworkOkAsWrittenIgnoresFormat(s: Song, f: ImageFormat)
    ensures ArtworkOkAsWritten(s) <==> ArtworkOk(s.(covers := Reformat(s.covers, Jpeg)))
    ensures ArtworkOkAsWritten(s.(covers := Reformat(s.covers, f))) == ArtworkOkAsWritten(s)
    ensures f != Jpeg ==> !ArtworkOk(s.(covers := Reformat(s.covers, f)))
  {
  }

  /** A valid song with a single PNG cover: accepted as written, rejected
      as intended. */
  lemma PngCoverAcceptedAsWritten()
    ensures var s := Song("01 Intro.m4a", None, [Artwork(Png, "89504e47")], None);
      ArtworkOkAsWritten(s) && !ArtworkOk(s)
  {
  }
}
