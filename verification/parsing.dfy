/** `_parse_song`, `_parse_album` and the folder test of `_parse_folder`,
    with mutagen and the file system replaced by the values they produce. */
module Parsing {
  import opened Wrappers
  import opened Text
  import opened Artworks
  import opened Songs
  import opened Albums
  import Paths
  import Sorting

  /** One entry of the MP4 `covr` atom: mutagen's atom data type code and
      the image bytes (as their hex rendering). */
  datatype CovrCover = CovrCover(imageFormat: int, data: string)

  /** The ID3 `APIC:` frame: declared MIME type and image bytes (hex). */
  datatype ApicFrame = ApicFrame(mime: string, data: string)

  /** The three keys of `audio.tags` the parser consults; `None` means the
      key is absent. */
  datatype Tags = Tags(
    covr: Option<seq<CovrCover>>,
    apic: Option<ApicFrame>,
    apId: Option<seq<string>>)

  /** What `mutagen.File(path)` did: raised an exception with a message,
      returned `None` (no known file type), or returned a file object whose
      `tags` attribute may itself be `None`. */
  datatype Opened = Raised(message: string) | NotRecognised | Audio(tags: Option<Tags>)

  /** The exceptions that escape the parser and end the scan. */
  datatype Fault =
    | AudioIsNone              // `assert audio is not None`
    | TagsAreNone              // `"covr" in None` raises TypeError
    | PurchaserCount(n: nat)   // `assert len(audio.tags['apID']) == 1`
    | PathTooShort             // unpacking `parts[-2:]` into two names

  /** `_parse_covr_tag`: one artwork per `covr` entry, in order. */
  function ParseCovrTag(covr: seq<CovrCover>): (covers: seq<Artwork>)
    ensures |covers| == |covr|
    ensures forall i :: 0 <= i < |covr| ==>
      covers[i] == Artwork(AtomToEnum(covr[i].imageFormat), covr[i].data)
  {
    seq(|covr|, i requires 0 <= i < |covr| => Artwork(AtomToEnum(covr[i].imageFormat), covr[i].data))
  }

  /** `_parse_apic_tag`: the single APIC picture, a JPEG when its MIME type
      mentions "jpeg" in any case, else a PNG when it mentions "png". */
  function ParseApicTag(apic: ApicFrame): (covers: seq<Artwork>)
    ensures |covers| == 1 && covers[0].contents == apic.data
    ensures covers[0].imageFormat == Jpeg <==> Occurs(Lower(apic.mime), "jpeg")
    ensures covers[0].imageFormat == Png <==>
      !Occurs(Lower(apic.mime), "jpeg") && Occurs(Lower(apic.mime), "png")
  {
    [Artwork(ParseMimeType(apic.mime), apic.data)]
  }

  /** The covers of a file: from `covr` if present, else from `APIC:`,
      else none. */
  function CoversOf(tags: Tags): (covers: seq<Artwork>)
    ensures tags.covr.Some? ==> var covr := tags.covr.value;
      && |covers| == |covr|
      && forall i :: 0 <= i < |covr| ==>
           covers[i] == Artwork(AtomToEnum(covr[i].imageFormat), covr[i].data)
    ensures tags.covr.None? && tags.apic.Some? ==>
      covers == [Artwork(ParseMimeType(tags.apic.value.mime), tags.apic.value.data)]
    ensures tags.covr.None? && tags.apic.None? ==> covers == []
  {
    if tags.covr.Some? then ParseCovrTag(tags.covr.value)
    else if tags.apic.Some? then ParseApicTag(tags.apic.value)
    else []
  }

  /** `_parse_song`. */
  function ParseSong(fileName: string, outcome: Opened): (r: Result<Song, Fault>)
    ensures r.Success? ==> r.value.fileName == fileName && WellFormed(r.value)
    ensures r.Failure? ==> r.error != PathTooShort
    ensures outcome.Raised? ==> r == Success(Song(fileName, None, [], Some(outcome.message)))
    ensures r.Failure? <==>
      || outcome.NotRecognised?
      || outcome == Audio(None)
      || (outcome.Audio? && outcome.tags.Some? && outcome.tags.value.apId.Some?
          && |outcome.tags.value.apId.value| != 1)
    ensures r.Success? && outcome.Audio? ==> r.value.error.None?
    ensures r.Success? && outcome.Audio? ==> var t := outcome.tags.value;
      && (t.covr.Some? ==> |r.value.covers| == |t.covr.value|)
      && (t.covr.Some? ==> forall i :: 0 <= i < |t.covr.value| ==>
            r.value.covers[i] == Artwork(AtomToEnum(t.covr.value[i].imageFormat), t.covr.value[i].data))
      && (t.covr.None? && t.apic.Some? ==>
            r.value.covers == [Artwork(ParseMimeType(t.apic.value.mime), t.apic.value.data)])
      && (t.covr.None? && t.apic.None? ==> r.value.covers == [])
      && (r.value.purchasedBy.Some? <==> t.apId.Some?)
      && (t.apId.Some? ==> r.value.purchasedBy == Some(t.apId.value[0]))
  {
    match outcome
    case Raised(message) => Success(Song(fileName, None, [], Some(message)))
    case NotRecognised => Failure(AudioIsNone)
    case Audio(None) => Failure(TagsAreNone)
    case Audio(Some(tags)) =>
      var covers := CoversOf(tags);
      if tags.apId.None? then Success(Song(fileName, None, covers, None))
      else if |tags.apId.value| != 1 then Failure(PurchaserCount(|tags.apId.value|))
      else Success(Song(fileName, Some(tags.apId.value[0]), covers, None))
  }

  /** When a file has a `covr` atom its `APIC:` frame is never read: the
      covers come from the atom, formats from the atom data types. */
  lemma CovrShadowsApic(fileName: string, tags: Tags, apic: Option<ApicFrame>)
    requires tags.covr.Some?
    ensures ParseSong(fileName, Audio(Some(tags))) == ParseSong(fileName, Audio(Some(tags.(apic := apic))))
    ensures var r := ParseSong(fileName, Audio(Some(tags)));
      r.Success? ==> forall i :: 0 <= i < |r.value.covers| ==>
        r.value.covers[i].imageFormat == AtomToEnum(tags.covr.value[i].imageFormat)
  {
  }

  /** An `APIC:` cover takes its format from the MIME type. */
  lemma ApicFormatFromMime(fileName: string, apic: ApicFrame, apId: Option<seq<string>>)
    ensures var r := ParseSong(fileName, Audio(Some(Tags(None, Some(apic), apId))));
      r.Success? ==> r.value.covers == [Artwork(ParseMimeType(apic.mime), apic.data)]
  {
  }

  // ----- file admission in `_parse_album` -----

  /** How `_parse_album` treats one file name. */
  datatype FileKind = Hidden | Companion | Unsupported | AudioFile

  const CompanionSuffixes: set<string> := {".mpg", ".mpeg", ".pdf", ".m4v", ".mov", ".mp4"}
  const AudioSuffixes: set<string> := {".m4a", ".m4p", ".mp3"}

  /** The three tests of the `_parse_album` loop, in order. A file becomes
      a song exactly when it is not hidden and its lower-cased suffix is
      one of the three audio suffixes; the companion list only saves a log
      line. */
  function Kind(file: string): (k: FileKind)
    ensures k == Hidden <==> |file| > 0 && file[0] == '.'
    ensures k == AudioFile <==>
      !(|file| > 0 && file[0] == '.') && Lower(Paths.Suffix(file)) in AudioSuffixes
  {
    if StartsWith(file, ".") then Hidden
    else
      var suffix := Lower(Paths.Suffix(file));
      if suffix in CompanionSuffixes then Companion
      else if suffix !in AudioSuffixes then Unsupported
      else AudioFile
  }

  /** Hidden files are skipped before their suffix is looked at. */
  lemma HiddenAudioFileSkipped()
    ensures Kind(".01 Intro.mp3") == Hidden
  {
  }

  /** The suffix is compared case-insensitively. */
  lemma UpperCaseSuffixAdmitted()
    ensures Kind("01 Intro.MP3") == AudioFile
  {
    var name := "01 Intro.MP3";
    assert name[..1][0] != '.';
    Paths.SuffixFromDot(name, 8);
    assert name[8..] == ".MP3";
    var suffix := Lower(".MP3");
    assert suffix == ".mp3";
    assert suffix !in CompanionSuffixes && suffix in AudioSuffixes;
  }

  /** A booklet is a companion file: skipped without a log line. */
  lemma BookletIsCompanion()
    ensures Kind("Booklet.pdf") == Companion
  {
    var name := "Booklet.pdf";
    assert name[..1][0] != '.';
    Paths.SuffixFromDot(name, 7);
    assert name[7..] == ".pdf";
    LowerOfLower(".pdf");
    assert ".pdf" in CompanionSuffixes;
  }

  /** A cover image next to the songs is skipped as unsupported. */
  lemma CoverImageUnsupported()
    ensures Kind("cover.jpg") == Unsupported
  {
    var name := "cover.jpg";
    assert name[..1][0] != '.';
    Paths.SuffixFromDot(name, 5);
    assert name[5..] == ".jpg";
    LowerOfLower(".jpg");
    assert ".jpg" !in CompanionSuffixes && ".jpg" !in AudioSuffixes;
  }

  /** A trailing dot leaves no suffix, so the file is not admitted. */
  lemma TrailingDotNotAdmitted()
    ensures Kind("01 Intro.mp3.") == Unsupported
  {
    var name := "01 Intro.mp3.";
    assert name[..1][0] != '.';
    Paths.NoSuffixAfterTrailingDot(name);
    assert Lower([]) == [];
    assert [] !in CompanionSuffixes && [] !in AudioSuffixes;
  }

  /** The filtered list `[f for f in files if Kind(f) == AudioFile]`. */
  function AudioFiles(files: seq<string>): (r: seq<string>)
    ensures |r| <= |files|
    ensures forall f :: f in r <==> f in files && Kind(f) == AudioFile
  {
    if files == [] then []
    else
      assert forall f :: f in files <==> f == files[0] || f in files[1..];
      if Kind(files[0]) == AudioFile then [files[0]] + AudioFiles(files[1..])
      else AudioFiles(files[1..])
  }

  /** Filtering keeps a sorted list sorted. */
  lemma {:induction false} AudioFilesSorted(files: seq<string>)
    requires Sorting.Sorted(files)
    ensures Sorting.Sorted(AudioFiles(files))
  {
    if files != [] {
      var rest := AudioFiles(files[1..]);
      AudioFilesSorted(files[1..]);
      if Kind(files[0]) == AudioFile {
        forall j | 0 <= j < |rest| ensures LexLe(files[0], rest[j]) {
          assert rest[j] in files[1..];
        }
      }
    }
  }

  function FileNames(songs: seq<Song>): (names: seq<string>)
    ensures |names| == |songs|
    ensures forall i :: 0 <= i < |songs| ==> names[i] == songs[i].fileName
  {
    seq(|songs|, i requires 0 <= i < |songs| => songs[i].fileName)
  }

  /** Parsing `f` with what the reader reports for it escapes no exception. */
  predicate Parses(f: string, read: string -> Opened) {
    ParseSong(f, read(f)).Success?
  }

  /** The song-building loop of `_parse_album` over already sorted names:
      every admitted file is parsed in turn, and the first escaping
      exception ends the loop. */
  function ParseSongs(files: seq<string>, read: string -> Opened): (r: Result<seq<Song>, Fault>)
    ensures r.Failure? ==> r.error != PathTooShort
    ensures r.Success? ==> |r.value| == |AudioFiles(files)|
  {
    if files == [] then Success([])
    else
      var rest := ParseSongs(files[1..], read);
      if Kind(files[0]) != AudioFile then rest
      else
        var head := ParseSong(files[0], read(files[0]));
        if head.Failure? then Failure(head.error)
        else if rest.Failure? then Failure(rest.error)
        else Success([head.value] + rest.value)
  }

  /** The loop gets through exactly when every admitted file parses. */
  lemma {:induction false} ParseSongsSucceedsIff(files: seq<string>, read: string -> Opened)
    ensures ParseSongs(files, read).Success? <==>
      forall f :: f in files && Kind(f) == AudioFile ==> Parses(f, read)
  {
    if files != [] {
      ParseSongsSucceedsIff(files[1..], read);
      assert forall f :: f in files <==> f == files[0] || f in files[1..];
    }
  }

  /** On success the songs' names are the admitted files, in order. */
  lemma {:induction false} ParseSongsNames(files: seq<string>, read: string -> Opened)
    requires ParseSongs(files, read).Success?
    ensures FileNames(ParseSongs(files, read).value) == AudioFiles(files)
  {
    if files != [] {
      ParseSongsNames(files[1..], read);
      if Kind(files[0]) == AudioFile {
        var head := ParseSong(files[0], read(files[0]));
        var rest := ParseSongs(files[1..], read);
        assert head.Success? && rest.Success?;
        assert ParseSongs(files, read).value == [head.value] + rest.value;
        FileNamesCons(head.value, rest.value);
      }
    }
  }

  lemma FileNamesCons(song: Song, songs: seq<Song>)
    ensures FileNames([song] + songs) == [song.fileName] + FileNames(songs)
  {
    assert forall i :: 0 < i <= |songs| ==> ([song] + songs)[i] == songs[i - 1];
  }

  /** On success each song is what parsing its own file gives. */
  lemma {:induction false} ParseSongsEachParsed(files: seq<string>, read: string -> Opened)
    requires ParseSongs(files, read).Success?
    ensures var songs := ParseSongs(files, read).value;
      forall i :: 0 <= i < |songs| ==> Success(songs[i]) == ParseSong(songs[i].fileName, read(songs[i].fileName))
  {
    if files != [] {
      var rest := ParseSongs(files[1..], read).value;
      ParseSongsEachParsed(files[1..], read);
      if Kind(files[0]) == AudioFile {
        var head := ParseSong(files[0], read(files[0]));
        var songs := [head.value] + rest;
        assert ParseSongs(files, read).value == songs;
        forall i | 0 <= i < |songs|
          ensures Success(songs[i]) == ParseSong(songs[i].fileName, read(songs[i].fileName))
        {
          if i > 0 {
            assert songs[i] == rest[i - 1];
          }
        }
      }
    }
  }

  /** `_parse_album`: the album is named after the last two parts of the
      folder's absolute path, and its songs are the admitted files parsed
      in sorted order of their names. */
  function ParseAlbum(parts: seq<string>, files: seq<string>, read: string -> Opened): (r: Result<Album, Fault>)
    ensures r == Failure(PathTooShort) <==> |parts| < 2
    ensures r.Success? <==>
      |parts| >= 2 && forall f :: f in files && Kind(f) == AudioFile ==> Parses(f, read)
    ensures r.Success? ==>
      && r.value.artistName == parts[|parts| - 2]
      && r.value.albumName == parts[|parts| - 1]
      && |r.value.songs| <= |files|
      && Sorting.Sorted(FileNames(r.value.songs))
      && (forall f :: f in FileNames(r.value.songs) <==> f in files && Kind(f) == AudioFile)
      && FileNames(r.value.songs) == AudioFiles(Sorting.Sort(files))
      && forall i :: 0 <= i < |r.value.songs| ==>
           Success(r.value.songs[i]) == ParseSong(r.value.songs[i].fileName, read(r.value.songs[i].fileName))
  {
    match Paths.LastTwoParts(parts)
    case None => Failure(PathTooShort)
    case Some((artistName, albumName)) =>
      var sorted := Sorting.Sort(files);
      Sorting.SortSameElements(files);
      var songs := ParseSongs(sorted, read);
      ParseSongsSucceedsIff(sorted, read);
      if songs.Failure? then
        Failure(songs.error)
      else
        ParseSongsNames(sorted, read);
        ParseSongsEachParsed(sorted, read);
        AudioFilesSorted(sorted);
        assert |songs.value| <= |sorted| == |files|;
        Success(Album(artistName, albumName, songs.value))
  }

  // ----- the leaf-folder test of `_parse_folder` -----

  /** `[d for d in dirs if ".itlp" not in d]`. */
  function NonLpDirs(dirs: seq<string>): (r: seq<string>)
    ensures forall d :: d in r <==> d in dirs && !Occurs(d, ".itlp")
  {
    if dirs == [] then []
    else
      assert forall d :: d in dirs <==> d == dirs[0] || d in dirs[1..];
      if !Contains(dirs[0], ".itlp") then [dirs[0]] + NonLpDirs(dirs[1..]) else NonLpDirs(dirs[1..])
  }

  /** A walked folder is parsed as an album unless it is, or lies inside, an
      iTunes LP bundle, or it has a sub-folder that is not one. */
  function IsAlbumFolder(subdir: string, dirs: seq<string>): (r: bool)
    ensures r <==> !Occurs(subdir, ".itlp") && forall i :: 0 <= i < |dirs| ==> Occurs(dirs[i], ".itlp")
  {
    var nonLp := NonLpDirs(dirs);
    assert nonLp != [] ==> nonLp[0] in nonLp;
    assert forall i :: 0 <= i < |dirs| ==> dirs[i] in dirs;
    !Contains(subdir, ".itlp") && nonLp == []
  }

  // ----- from files to messages -----

  /** A folder with no admitted file gives an album without songs, which
      reports "No artwork". */
  lemma {:induction false} NoAudioFilesMeansNoArtwork(parts: seq<string>, files: seq<string>, read: string -> Opened)
    requires |parts| >= 2
    requires forall f :: f in files ==> Kind(f) != AudioFile
    ensures ParseAlbum(parts, files, read).Success?
    ensures StatusMessage(ParseAlbum(parts, files, read).value) == "No artwork"
  {
    var album := ParseAlbum(parts, files, read).value;
    var names := FileNames(album.songs);
    assert forall i :: 0 <= i < |names| ==> names[i] in names;
    assert forall f :: f !in names;
  }

  /** A file mutagen cannot open still becomes a song, one without a cover:
      next to a covered song it makes the album report "Some artwork
      missing". */
  lemma UnreadableFileMeansArtworkMissing(good: Song, badName: string, message: string)
    requires HasCover(good)
    ensures var bad := ParseSong(badName, Raised(message));
      && bad.Success? && !IsValidAudio(bad.value) && !HasCover(bad.value)
      && StatusMessage(Album("Artist", "Album", [good, bad.value])) == "Some artwork missing"
  {
    var bad := ParseSong(badName, Raised(message)).value;
    SomeArtworkMissingIff(Album("Artist", "Album", [good, bad]));
    assert [good, bad][1] == bad;
    assert [good, bad][0] == good;
  }
}
