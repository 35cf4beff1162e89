/** `Album`: the songs of one leaf folder, the album-level predicates, and
    the first-match artwork rule chain behind `Album.status_message`. */
module Albums {
  import opened Wrappers
  import opened Artworks
  import opened Songs

  /** `Album`: artist folder name, album folder name and the songs in the
      order they were added. */
  datatype Album = Album(artistName: string, albumName: string, songs: seq<Song>)

  /** Python's `all(song.artwork_ok for song in songs)` as written. */
  function AllArtworkOkAsWritten(songs: seq<Song>): (ok: bool)
    ensures ok <==> forall i :: 0 <= i < |songs| ==> songs[i].error.None? && |songs[i].covers| == 1
  {
    songs == [] || (Songs.ArtworkOkAsWritten(songs[0]) && AllArtworkOkAsWritten(songs[1..]))
  }

  /** The same with the intended per-song predicate. */
  function AllArtworkOk(songs: seq<Song>): (ok: bool)
    ensures ok <==> forall i :: 0 <= i < |songs| ==>
      songs[i].error.None? && |songs[i].covers| == 1 && songs[i].covers[0].imageFormat == Jpeg
  {
    songs == [] || (Songs.ArtworkOk(songs[0]) && AllArtworkOk(songs[1..]))
  }

  /** `Album.artwork_ok` as written. */
  function ArtworkOkAsWritten(album: Album): bool {
    AllArtworkOkAsWritten(album.songs)
  }

  /** `Album.artwork_ok` with the per-song predicate as intended. */
  function ArtworkOk(album: Album): bool {
    AllArtworkOk(album.songs)
  }

  /** Python's `set(song.purchased_by for song in songs if song.purchased_by
      is not None)`: every id that is present, the empty id included. */
  function PurchasedIds(songs: seq<Song>): (ids: set<string>)
    ensures forall id :: id in ids <==> exists i :: 0 <= i < |songs| && songs[i].purchasedBy == Some(id)
  {
    if songs == [] then {}
    else
      var rest := PurchasedIds(songs[1..]);
      assert forall i :: 0 < i < |songs| ==> songs[i] == songs[1..][i - 1];
      match songs[0].purchasedBy
      case Some(id) => {id} + rest
      case None => rest
  }

  /** `Album.purchased_by`. */
  function PurchasedBy(album: Album): set<string> {
    PurchasedIds(album.songs)
  }

  /** Every purchased song's id is reported; the converse fails for a song
      whose id is the empty string, which `Song.purchased` treats as not
      purchased but `Album.purchased_by` still lists. */
  lemma PurchasedByCoversPurchasedSongs(album: Album)
    ensures forall i :: 0 <= i < |album.songs| && Purchased(album.songs[i]) ==>
      album.songs[i].purchasedBy.value in PurchasedBy(album)
    ensures var a := Album("Artist", "Album", [Song("a.m4a", Some(""), [], None)]);
      "" in PurchasedBy(a) && !Purchased(a.songs[0])
  {
  }

  /** The outcomes of `Album.status_message`, one per message. */
  datatype Status =
    | NoArtwork
    | SomeArtworkMissing
    | MultipleCoversPerFile
    | MultipleCovers
    | MultipleImageFormats
    | PngArtwork
    | UnknownArtworkFormat
    | Clean

  function Message(s: Status): string {
    match s
    case NoArtwork => "No artwork"
    case SomeArtworkMissing => "Some artwork missing"
    case MultipleCoversPerFile => "Multiple covers per file"
    case MultipleCovers => "Multiple covers"
    case MultipleImageFormats => "Multiple image formats"
    case PngArtwork => "PNG artwork"
    case UnknownArtworkFormat => "Unknown artwork format"
    case Clean => ""
  }

  /** The message determines the outcome, and only `Clean` is silent. */
  lemma MessageInjective(a: Status, b: Status)
    ensures Message(a) == Message(b) <==> a == b
    ensures Message(a) == "" <==> a == Clean
  {
  }

  /** Python's `set(xs)`. */
  function Distinct<T>(xs: seq<T>): set<T> {
    set x | x in xs
  }

  /** `len(set(xs)) > 1` exactly when two entries of `xs` differ. */
  lemma {:induction false} MoreThanOneDistinct<T>(xs: seq<T>)
    ensures |Distinct(xs)| > 1 <==> exists i, j :: 0 <= i < |xs| && 0 <= j < |xs| && xs[i] != xs[j]
  {
    var d := Distinct(xs);
    if |d| > 1 {
      var a :| a in d;
      assert |d - {a}| == |d| - 1 > 0;
      var b :| b in d - {a};
      var i :| 0 <= i < |xs| && xs[i] == a;
      var j :| 0 <= j < |xs| && xs[j] == b;
      assert xs[i] != xs[j];
    }
    if i, j :| 0 <= i < |xs| && 0 <= j < |xs| && xs[i] != xs[j] {
      assert xs[i] in d;
      assert |d - {xs[i]}| == |d| - 1;
      assert xs[j] in d - {xs[i]};
    }
  }

  predicate AllHaveOneCover(songs: seq<Song>) {
    forall i :: 0 <= i < |songs| ==> |songs[i].covers| == 1
  }

  /** `[song.covers[0] for song in songs]`. */
  function FirstCovers(songs: seq<Song>): (firsts: seq<Artwork>)
    requires AllHaveOneCover(songs)
    ensures |firsts| == |songs|
    ensures forall i :: 0 <= i < |songs| ==> firsts[i] == songs[i].covers[0]
  {
    seq(|songs|, i requires 0 <= i < |songs| => songs[i].covers[0])
  }

  function Contents(covers: seq<Artwork>): (r: seq<string>)
    ensures |r| == |covers|
    ensures forall i :: 0 <= i < |covers| ==> r[i] == covers[i].contents
  {
    seq(|covers|, i requires 0 <= i < |covers| => covers[i].contents)
  }

  function Formats(covers: seq<Artwork>): (r: seq<ImageFormat>)
    ensures |r| == |covers|
    ensures forall i :: 0 <= i < |covers| ==> r[i] == covers[i].imageFormat
  {
    seq(|covers|, i requires 0 <= i < |covers| => covers[i].imageFormat)
  }

  /** The rule chain of `Album.status_message`, in source order: the first
      condition that holds decides the message. */
  function Classify(songs: seq<Song>): (s: Status)
    ensures songs == [] ==> s == NoArtwork
  {
    if forall i :: 0 <= i < |songs| ==> !HasCover(songs[i]) then NoArtwork
    else if !(forall i :: 0 <= i < |songs| ==> HasCover(songs[i])) then SomeArtworkMissing
    else if !AllHaveOneCover(songs) then MultipleCoversPerFile
    else if |Distinct(Contents(FirstCovers(songs)))| > 1 then MultipleCovers
    else if |Distinct(Formats(FirstCovers(songs)))| > 1 then MultipleImageFormats
    else if exists i :: 0 <= i < |songs| && songs[i].covers[0].imageFormat == Png then PngArtwork
    else if exists i :: 0 <= i < |songs| && songs[i].covers[0].imageFormat == Unknown then UnknownArtworkFormat
    else Clean
  }

  /** `Album.status_message`: the message of the first rule of the table
      that fires. */
  function StatusMessage(album: Album): (m: string)
    ensures m == Message(FirstMatch(ArtworkRules, album.songs))
  {
    ClassifyIsFirstMatch(album.songs);
    Message(Classify(album.songs))
  }

  // The same chain kept as data: an ordered rule list, a total condition
  // per rule, and a generic first-match evaluator.

  const ArtworkRules: seq<Status> := [
    NoArtwork, SomeArtworkMissing, MultipleCoversPerFile, MultipleCovers,
    MultipleImageFormats, PngArtwork, UnknownArtworkFormat]

  /** The condition of each rule, stated for any song list. */
  predicate Fires(rule: Status, songs: seq<Song>) {
    match rule
    case NoArtwork =>
      forall i :: 0 <= i < |songs| ==> !HasCover(songs[i])
    case SomeArtworkMissing =>
      exists i :: 0 <= i < |songs| && !HasCover(songs[i])
    case MultipleCoversPerFile =>
      exists i :: 0 <= i < |songs| && |songs[i].covers| != 1
    case MultipleCovers =>
      exists i, j :: 0 <= i < |songs| && 0 <= j < |songs| && HasCover(songs[i]) && HasCover(songs[j])
        && songs[i].covers[0].contents != songs[j].covers[0].contents
    case MultipleImageFormats =>
      exists i, j :: 0 <= i < |songs| && 0 <= j < |songs| && HasCover(songs[i]) && HasCover(songs[j])
        && songs[i].covers[0].imageFormat != songs[j].covers[0].imageFormat
    case PngArtwork =>
      exists i :: 0 <= i < |songs| && HasCover(songs[i]) && songs[i].covers[0].imageFormat == Png
    case UnknownArtworkFormat =>
      exists i :: 0 <= i < |songs| && HasCover(songs[i]) && songs[i].covers[0].imageFormat == Unknown
    case Clean => true
  }

  /** Index of the first rule of `rules` whose condition holds, or
      `|rules|` when none does. */
  function FirstFiring(rules: seq<Status>, songs: seq<Song>): (k: nat)
    ensures k <= |rules|
    ensures k < |rules| ==> Fires(rules[k], songs)
    ensures forall j :: 0 <= j < k ==> !Fires(rules[j], songs)
  {
    if rules == [] then 0
    else if Fires(rules[0], songs) then 0
    else
      var k := FirstFiring(rules[1..], songs);
      assert forall j :: 0 < j <= k ==> rules[j] == rules[1..][j - 1];
      k + 1
  }

  /** First-match evaluation of a rule list; `Clean` when no rule fires. */
  function FirstMatch(rules: seq<Status>, songs: seq<Song>): Status {
    var k := FirstFiring(rules, songs);
    if k < |rules| then rules[k] else Clean
  }

  /** Under one cover per song, the source's set-size test on the first
      covers' contents is the existence of two differing songs. */
  lemma MultipleCoversCondition(songs: seq<Song>)
    requires AllHaveOneCover(songs)
    ensures |Distinct(Contents(FirstCovers(songs)))| > 1 <==> Fires(MultipleCovers, songs)
  {
    var xs := Contents(FirstCovers(songs));
    MoreThanOneDistinct(xs);
    if Fires(MultipleCovers, songs) {
      var i, j :| 0 <= i < |songs| && 0 <= j < |songs| && HasCover(songs[i]) && HasCover(songs[j])
        && songs[i].covers[0].contents != songs[j].covers[0].contents;
      assert xs[i] != xs[j];
    }
  }

  lemma MultipleFormatsCondition(songs: seq<Song>)
    requires AllHaveOneCover(songs)
    ensures |Distinct(Formats(FirstCovers(songs)))| > 1 <==> Fires(MultipleImageFormats, songs)
  {
    var xs := Formats(FirstCovers(songs));
    MoreThanOneDistinct(xs);
    if Fires(MultipleImageFormats, songs) {
      var i, j :| 0 <= i < |songs| && 0 <= j < |songs| && HasCover(songs[i]) && HasCover(songs[j])
        && songs[i].covers[0].imageFormat != songs[j].covers[0].imageFormat;
      assert xs[i] != xs[j];
    }
  }

  /** The source's chain and the rule table agree on every song list. */
  lemma ClassifyIsFirstMatch(songs: seq<Song>)
    ensures Classify(songs) == FirstMatch(ArtworkRules, songs)
  {
    var rules := ArtworkRules;
    var k := FirstFiring(rules, songs);
    if AllHaveOneCover(songs) {
      MultipleCoversCondition(songs);
      MultipleFormatsCondition(songs);
    }
    if k == 0 {
    } else if k == 1 {
      assert !Fires(rules[0], songs);
    } else if k == 2 {
      assert !Fires(rules[0], songs) && !Fires(rules[1], songs);
    } else {
      assert !Fires(rules[0], songs) && !Fires(rules[1], songs) && !Fires(rules[2], songs);
      assert AllHaveOneCover(songs);
      if k == 3 {
      } else if k == 4 {
        assert !Fires(rules[3], songs);
      } else if k == 5 {
        assert !Fires(rules[3], songs) && !Fires(rules[4], songs);
      } else if k == 6 {
        assert !Fires(rules[3], songs) && !Fires(rules[4], songs) && !Fires(rules[5], songs);
      } else {
        assert !Fires(rules[3], songs) && !Fires(rules[4], songs) && !Fires(rules[5], songs);
        assert !Fires(rules[6], songs);
      }
    }
  }

  // Properties of the chain.

  /** The status is silent exactly when no rule of the table fires. */
  lemma SilentIffNoRuleFires(album: Album)
    ensures StatusMessage(album) == "" <==>
      forall k :: 0 <= k < |ArtworkRules| ==> !Fires(ArtworkRules[k], album.songs)
  {
    MessageInjective(FirstMatch(ArtworkRules, album.songs), Clean);
  }

  /** An album without songs reports "No artwork" (Python's `all` over
      nothing is true), while its `artwork_ok` holds. */
  lemma EmptyAlbum(artistName: string, albumName: string)
    ensures var a := Album(artistName, albumName, []);
      StatusMessage(a) == "No artwork" && ArtworkOk(a) && ArtworkOkAsWritten(a)
  {
  }

  /** "Some artwork missing" is reported exactly when the album mixes
      songs with and without a cover, whatever the covers are. */
  lemma SomeArtworkMissingIff(album: Album)
    ensures StatusMessage(album) == "Some artwork missing" <==>
      && (exists i :: 0 <= i < |album.songs| && HasCover(album.songs[i]))
      && (exists j :: 0 <= j < |album.songs| && !HasCover(album.songs[j]))
  {
  }

  /** With exactly one cover per song, two songs whose covers' contents
      differ yield "Multiple covers", whatever the formats: the contents
      test comes before every format test. */
  lemma DifferentContentsMeansMultipleCovers(album: Album, i: int, j: int)
    requires AllHaveOneCover(album.songs)
    requires 0 <= i < |album.songs| && 0 <= j < |album.songs|
    requires album.songs[i].covers[0].contents != album.songs[j].covers[0].contents
    ensures StatusMessage(album) == "Multiple covers"
  {
    MultipleCoversCondition(album.songs);
    assert HasCover(album.songs[i]);
  }

  /** The message is empty exactly when the album has songs, each with
      exactly one cover, all first covers alike in contents and format, and
      that format is JPEG. */
  lemma {:induction false} CleanIff(album: Album)
    ensures StatusMessage(album) == "" <==>
      && |album.songs| > 0
      && AllHaveOneCover(album.songs)
      && (forall i, j :: 0 <= i < |album.songs| && 0 <= j < |album.songs| ==>
            album.songs[i].covers[0].contents == album.songs[j].covers[0].contents)
      && (forall i, j :: 0 <= i < |album.songs| && 0 <= j < |album.songs| ==>
            album.songs[i].covers[0].imageFormat == album.songs[j].covers[0].imageFormat)
      && album.songs[0].covers[0].imageFormat == Jpeg
  {
    var songs := album.songs;
    MessageInjective(Classify(songs), Clean);
    if AllHaveOneCover(songs) {
      MultipleCoversCondition(songs);
      MultipleFormatsCondition(songs);
      if |songs| > 0 {
        assert HasCover(songs[0]);
      }
    }
  }

  /** With the intended per-song predicate, a silent status on a non-empty
      album of parsed songs implies that the album's artwork is OK. The
      converse fails: two songs with different JPEG covers are OK song by
      song but report "Multiple covers". */
  lemma CleanImpliesArtworkOk(album: Album)
    requires forall i :: 0 <= i < |album.songs| ==> WellFormed(album.songs[i])
    requires StatusMessage(album) == ""
    ensures ArtworkOk(album) && ArtworkOkAsWritten(album)
    ensures var a := Album("Artist", "Album", [
        Song("1.m4a", None, [Artwork(Jpeg, "ff01")], None),
        Song("2.m4a", None, [Artwork(Jpeg, "ff02")], None)]);
      ArtworkOk(a) && StatusMessage(a) == "Multiple covers"
  {
    CleanIff(album);
    TwoJpegCovers();
  }

  /** Two songs with different JPEG covers: each passes `artwork_ok`, the
      album reports "Multiple covers". */
  lemma TwoJpegCovers()
    ensures var a := Album("Artist", "Album", [
        Song("1.m4a", None, [Artwork(Jpeg, "ff01")], None),
        Song("2.m4a", None, [Artwork(Jpeg, "ff02")], None)]);
      ArtworkOk(a) && StatusMessage(a) == "Multiple covers"
  {
    var a := Album("Artist", "Album", [
        Song("1.m4a", None, [Artwork(Jpeg, "ff01")], None),
        Song("2.m4a", None, [Artwork(Jpeg, "ff02")], None)]);
    DifferentContentsMeansMultipleCovers(a, 0, 1);
  }
}
