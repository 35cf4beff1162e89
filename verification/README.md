# Preservationist artwork audit, modelled in Dafny

preservationist scans a music library laid out as `artist/album/` folders and
flags albums whose embedded cover art is messy. This project models the pure
decision logic of `preservationist/identification.py`:

- the per-song predicates of `Song` (`has_cover`, `is_valid_audio`,
  `purchased`, `artwork_ok`) and `Artwork.ok`;
- the album predicates `Album.artwork_ok` and `Album.purchased_by`;
- the ordered, first-match rule chain of `Album.status_message`. It returns one
  of seven messages, or `""` when the artwork is fine;
- the normalisation of declared image formats (`_atom_to_enum` for MP4 `covr`
  atoms and `_parse_mime_type` for ID3 `APIC` frames);
- `_parse_song`, with mutagen replaced by the value it produced. Covers come
  from `covr` if present, else from `APIC:`, else none. The `apID` purchaser
  list must hold exactly one entry;
- `_parse_album`: hidden, companion and unsupported files are skipped, and the
  rest are parsed in sorted order of their names;
- the leaf-folder test of `_parse_folder` (iTunes LP bundles).

Modules, one per concern: `Wrappers` (Option/Result), `Text` (ASCII
lower-casing, substring search, code-point order), `Paths` (`PurePath.suffix`,
the last two path parts), `Sorting` (`sorted` on names), `Artworks`, `Songs`,
`Albums` and `Parsing`.

The status chain is written twice. `Albums.Classify` follows the source's
`if` sequence, set sizes included. `Albums.ArtworkRules` holds the same chain as
data: an ordered rule list, a total condition per rule (`Albums.Fires`) and a
generic first-match evaluator. `Albums.ClassifyIsFirstMatch` proves that the two
agree.

Uncaught exceptions end the whole scan. They are modelled as `Parsing.Fault`
values:
- `mutagen.File` returning `None` hits `assert audio is not None`;
- a file object whose `tags` is `None` makes `"covr" in None` raise;
- an `apID` list whose length is not one fails the assertion;
- a folder path with fewer than two parts cannot be unpacked.

An exception raised by `mutagen.File` itself is caught and becomes a song
with `error` set and no covers.

Unsupported files are skipped. Only a file mutagen fails to open becomes a song
with an error.

## Model

| member | source | states |
|---|---|---|
| `Artworks.AtomToEnum` | preservationist/identification.py:257-262 | total: the JPEG atom type gives JPEG, the PNG atom type gives PNG, and every other code gives UNKNOWN (each direction of each case) |
| `Artworks.ParseMimeType` | preservationist/identification.py:272-278 | JPEG iff "jpeg" occurs in the lower-cased MIME type; PNG iff "png" occurs there and "jpeg" does not; UNKNOWN iff neither occurs |
| `Artworks.ParseMimeTypeIgnoresCase` | preservationist/identification.py:272-273 | upper-casing the MIME type never changes its format |
| `Artworks.JpegWinsOverPng` | preservationist/identification.py:274-277 | a MIME type holding "jpeg" stays JPEG when "png" is added before or after it |
| `Artworks.MimeTypeJpegExample` | preservationist/identification.py:272-275 | "image/JPEG" is a JPEG |
| `Artworks.MimeTypePngExample` | preservationist/identification.py:276-277 | "image/png" is a PNG |
| `Artworks.MimeTypeJpgIsUnknown` | preservationist/identification.py:272-278 | "image/jpg" is UNKNOWN, because only "jpeg" is recognised |
| `Songs.ArtworkOk` | preservationist/identification.py:146-158 | as intended, a song's artwork is OK iff the as-written test holds and its single cover is a JPEG |
| `Songs.ArtworkOkAsWrittenIgnoresFormat` | preservationist/identification.py:146-158 | as written, a song passes iff it would pass the intended test with every cover recoloured to JPEG; recolouring to any format leaves the as-written verdict unchanged, while the intended verdict rejects every non-JPEG format |
| `Songs.PngCoverAcceptedAsWritten` | preservationist/identification.py:146-158 | a valid song with one PNG cover passes as written and fails as intended |
| `Albums.AllArtworkOkAsWritten` | preservationist/identification.py:35-39 | `Album.artwork_ok` as written holds iff every song opened without error and has exactly one cover |
| `Albums.AllArtworkOk` | preservationist/identification.py:35-39 | with the intended song test, `Album.artwork_ok` holds iff every song opened without error and has exactly one cover, a JPEG |
| `Albums.PurchasedIds` | preservationist/identification.py:41-45 | an id is in `purchased_by` iff some song's purchaser id is present and equal to it |
| `Albums.PurchasedByCoversPurchasedSongs` | preservationist/identification.py:131-134 | every purchased song's id is in `purchased_by`; an empty id is listed although its song does not count as purchased |
| `Albums.MessageInjective` | preservationist/identification.py:52-75 | the seven messages and `""` are pairwise distinct, and only the clean outcome is `""` |
| `Albums.MoreThanOneDistinct` | preservationist/identification.py:61-64 | `len(set(xs)) > 1` holds iff two entries of `xs` differ |
| `Albums.MultipleCoversCondition` | preservationist/identification.py:61-62 | with one cover per song, the set-size test on the covers' contents holds iff two songs' covers differ in contents |
| `Albums.MultipleFormatsCondition` | preservationist/identification.py:64-65 | with one cover per song, the set-size test on formats holds iff two songs' covers differ in format |
| `Albums.Classify` | preservationist/identification.py:47-75 | an empty song list classifies as "No artwork" |
| `Albums.ClassifyIsFirstMatch` | preservationist/identification.py:47-75 | the source's chain equals first-match evaluation of the ordered rule table on every song list |
| `Albums.StatusMessage` | preservationist/identification.py:47-75 | the message is that of the first rule of the ordered rule table whose condition holds, `""` when none does |
| `Albums.SilentIffNoRuleFires` | preservationist/identification.py:47-75 | the status is `""` iff none of the seven conditions holds |
| `Albums.EmptyAlbum` | preservationist/identification.py:35-53 | an album without songs reports "No artwork", and both forms of `artwork_ok` hold for it |
| `Albums.SomeArtworkMissingIff` | preservationist/identification.py:52-56 | the status is "Some artwork missing" iff some song has a cover and some song has none |
| `Albums.DifferentContentsMeansMultipleCovers` | preservationist/identification.py:58-62 | with exactly one cover per song, two covers with different contents give "Multiple covers", whatever the formats |
| `Albums.CleanIff` | preservationist/identification.py:52-75 | the status is `""` iff there are songs, each has exactly one cover, all first covers agree in contents and in format, and that format is JPEG |
| `Albums.CleanImpliesArtworkOk` | preservationist/identification.py:35-75 | on parsed songs a clean status implies that `artwork_ok` holds, intended and as written; two different JPEG covers show the converse fails |
| `Albums.TwoJpegCovers` | preservationist/identification.py:35-62 | two songs with different JPEG covers each pass `artwork_ok`, and the album reports "Multiple covers" |
| `Paths.Suffix` | preservationist/identification.py:209 | the suffix is empty, or is a tail of the name that starts with its only dot, is at least two characters long and is shorter than the name; it is empty iff the name has no dot, has its only dot first, or ends in a dot |
| `Paths.SuffixFromDot` | preservationist/identification.py:209 | a dot strictly inside the name with no dot after it starts the suffix |
| `Paths.NoSuffixAfterTrailingDot` | preservationist/identification.py:209 | a name ending in a dot has an empty suffix |
| `Paths.LastTwoParts` | preservationist/identification.py:202 | unpacking fails iff there are fewer than two parts; otherwise it yields the last two parts in order |
| `Sorting.Sort` | preservationist/identification.py:205 | `sorted(files)` is ordered by code points and is a permutation of the input |
| `Sorting.SortSameElements` | preservationist/identification.py:205 | sorting keeps exactly the same names |
| `Parsing.ParseCovrTag` | preservationist/identification.py:248-254 | one artwork per `covr` entry, in order, with the format from `_atom_to_enum` and the entry's bytes as contents |
| `Parsing.ParseApicTag` | preservationist/identification.py:265-278 | one artwork holding the picture's bytes; it is a JPEG iff the lower-cased MIME type contains "jpeg", and a PNG iff it contains "png" but not "jpeg" |
| `Parsing.CoversOf` | preservationist/identification.py:237-240 | with `covr` present the covers are its entries in order, each with its atom format and bytes; else the single `APIC:` picture; else none |
| `Parsing.ParseSong` | preservationist/identification.py:223-245 | an open failure gives a song with the error and nothing else; the parse fails iff mutagen returned `None`, the tags are `None`, or `apID` does not hold exactly one entry; with `covr` the covers are its entries in order, each with the atom's format and bytes; else they are the one `APIC:` picture with its MIME format and bytes; else none; the purchaser is `apID[0]` |
| `Parsing.CovrShadowsApic` | preservationist/identification.py:237-240 | when `covr` is present, the `APIC:` frame has no influence on the song, and the covers take their formats from the atom types |
| `Parsing.ApicFormatFromMime` | preservationist/identification.py:265-269 | without `covr`, the single `APIC:` picture becomes the only cover, with its format from the MIME type |
| `Parsing.Kind` | preservationist/identification.py:205-215 | a file is hidden iff its name starts with "."; it becomes a song iff it is not hidden and its lower-cased suffix is .m4a, .m4p or .mp3 |
| `Parsing.HiddenAudioFileSkipped` | preservationist/identification.py:206-207 | a hidden file is skipped even with an audio suffix |
| `Parsing.UpperCaseSuffixAdmitted` | preservationist/identification.py:209-213 | ".MP3" is admitted because the suffix is lower-cased |
| `Parsing.BookletIsCompanion` | preservationist/identification.py:209-211 | a .pdf booklet is a companion file, not a song |
| `Parsing.CoverImageUnsupported` | preservationist/identification.py:209-215 | a .jpg next to the songs is unsupported, not a song |
| `Parsing.TrailingDotNotAdmitted` | preservationist/identification.py:209-215 | a name ending in a dot has no suffix and is not admitted |
| `Parsing.AudioFiles` | preservationist/identification.py:205-218 | the admitted names are exactly the input names of audio kind, and there are no more of them than inputs |
| `Parsing.AudioFilesSorted` | preservationist/identification.py:205-218 | skipping files keeps a sorted name list sorted |
| `Parsing.ParseSongs` | preservationist/identification.py:205-218 | the loop yields one song per admitted file, and its only faults are those of `_parse_song` |
| `Parsing.ParseSongsSucceedsIff` | preservationist/identification.py:205-218 | the loop gets through iff every admitted file parses without an escaping exception |
| `Parsing.ParseSongsNames` | preservationist/identification.py:205-218 | the songs' names are the admitted names, in their input order |
| `Parsing.ParseSongsEachParsed` | preservationist/identification.py:217-218 | each song is what `_parse_song` gives for its own file |
| `Parsing.ParseAlbum` | preservationist/identification.py:201-220 | fails on the path iff it has fewer than two parts; otherwise succeeds iff every admitted file parses; the album is named by the last two path parts; its song names are exactly the admitted files of the sorted name list, in that order; each song is what `_parse_song` gives for its own file |
| `Parsing.NoAudioFilesMeansNoArtwork` | preservationist/identification.py:201-220 | a folder with no admitted file parses to an album that reports "No artwork" |
| `Parsing.UnreadableFileMeansArtworkMissing` | preservationist/identification.py:226-232 | a file mutagen cannot open becomes an invalid song without a cover, and next to a covered song it makes the album report "Some artwork missing" |
| `Parsing.NonLpDirs` | preservationist/identification.py:193 | the kept sub-folders are exactly those whose names do not contain ".itlp" |
| `Parsing.IsAlbumFolder` | preservationist/identification.py:190-195 | a walked folder is parsed iff its path does not contain ".itlp" and every sub-folder name contains ".itlp" |

## Findings

| source | as written | input that shows it | evidently intended | confidence | as-written member | corrected member |
|---|---|---|---|---|---|---|
| preservationist/identification.py:148 | `self.covers[0].ok` names the method without calling it. A bound method is always truthy, so `Song.artwork_ok` never checks the cover's format | a song that opened cleanly with one PNG cover: `artwork_ok` is true | `self.covers[0].ok()`: the single cover must be a JPEG, as `Artwork.ok` (lines 156-158) checks | high; not executed | `Songs.ArtworkOkAsWritten`, exhibited by `Songs.PngCoverAcceptedAsWritten` and `Songs.ArtworkOkAsWrittenIgnoresFormat` | `Songs.ArtworkOk`, used by `Albums.ArtworkOk` and proved in `Albums.CleanImpliesArtworkOk` |

## Left out

- mutagen (`mutagen.File`, tag objects, `.hex()`): foreign library code. A
  file's open outcome is the `Parsing.Opened` value, handed in through a
  `read` function. Image bytes are opaque strings. `.hex()` is injective, so
  the model uses the bytes themselves as the cover contents.
- The `AtomDataType(...)` constructor, which raises on a code mutagen does not
  know: foreign. Atom types are plain integers. The JPEG and PNG codes are
  mutagen's values, 13 and 14.
- Any other exception inside `_parse_covr_tag` or `_parse_apic_tag`, such as
  malformed tag objects: foreign behaviour of mutagen.
- `os.walk`, its sorting and `tqdm` in `_parse_folder`: file-system traversal
  and progress display. Only the per-folder test is modelled
  (`Parsing.IsAlbumFolder`). `Path(subdir).absolute()` is taken as its list of
  parts.
- `diagnose`, CSV writing, printing and `Album.__str__`: I/O and fixed-width
  formatting.
- `_album_to_row`: it reads `album.ok`, which does not exist, so it would
  raise.
- Logging: no effect on results. The companion-suffix test only saves a log
  line.
- `preservationist/entry_points/preserve.py` and `setup.py`: argument parsing,
  logger setup and packaging.
- The commented-out blocks at identification.py:78-110 and 281-313: dead code.
- `Song.valid_audio_file`: set once and never read.
- The memoisation in `Album` (`_artwork_ok`, `_purchased_by`) and
  `Song._file_type`: the model computes these as pure functions of the
  songs. `add_song` is the order of the song sequence.
- `Text.Lower`: models `str.lower` on ASCII letters only. No non-ASCII
  character lower-cases to any character of "jpeg", "png" or the suffixes
  the parser compares. A non-ASCII file name or MIME type therefore gets the
  same verdict.
- `Paths.Suffix`: models `PurePath.suffix` as of Python 3.6, the version the
  package declares. It takes a single name component, which is what
  `os.walk` yields.
