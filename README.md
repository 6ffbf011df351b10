# Supysonic scanner and media decisions in Dafny

Supysonic is a Python server for the Subsonic music-streaming API. This
project models two of its parts and proves properties of them.

**The library scanner** is the `Scanner` class of `scanner.py`. When it is
made, it loads:
- three lookup tables: track path to id, lower-cased artist name to artist,
  and folder path to folder;
- the list of playlists;
- six counters (artists, albums and tracks added and deleted).

`scan` walks a music folder bottom-up:
- it passes over folders not modified since their last scan;
- it adds folders it has not seen;
- for each file whose name ends in a configured type, it reads the tags
  (new or modified files only) and files the track under its album and
  artist.

Artists and albums are found, or created, by `__find_album`. `prune` deletes,
committing after each stage:
1. the tracks whose files are gone;
2. then the albums left without a track;
3. then the artists left without an album.

`__remove_track` takes a track off the loaded playlists and deletes it.
`stats` reports the counters.

**The stream and cover-art decisions** come from `api/media.py`:
- `prepare_transcoding_cmdline` substitutes the four `%` placeholders of a
  command template.
- The planning part of `stream_media` decides:
  - whether to transcode;
  - the destination format and bitrate, which depend on `maxBitRate`,
    `format`, the client's stored preferences and the lossless FLAC rule;
  - which transcoder, decoder and encoder templates to use, including the
    split of one template at its first `|`.
- `cover_art` decides which size to produce, the cache path, and whether to
  save the image as it is, serve the cached copy, or shrink it.

The catalog (the database behind the ORM session) is a datatype of maps from
ids to records: `Catalog` in `catalog.dfy`. The scanner is a `class` whose
fields are the Python fields, plus `db`, the catalog the session writes to.
Each method of the class updates those fields in place. Its `ensures` says
the new state is the one a function of `Reconcile` (the scan) or `Pruning`
(prune, remove, stats) gives for the old state. Those functions carry the
lemmas. The stream planner and the template selection are methods that
reassign their locals step by step, as the server does. Each is proved equal
to a closed-form decision table, and the lemmas are stated on that table.

Files (module per file):
- `wrappers.dfy` (`Option`, `Result`).
- `strings.dfy`: `lower`, `strip`, `split`, `replace`, `int()`/`str()`.
- `paths.dfy`: POSIX `basename`, `dirname`, `join`.
- `catalog.dfy`: records, the integrity predicate, session writes, list
  helpers.
- `reconcile.dfy`: the scan as functions, and its lemmas.
- `prune.dfy`: `prune`, `__remove_track`, `stats`, as functions and lemmas.
- `rescan.dfy`: scanning the same tree a second time.
- `scanner.dfy`: the `Scanner` class.
- `transcode.dfy`: `prepare_transcoding_cmdline`, the stream planner,
  template selection.
- `coverart.dfy`: the cover-art size and cache decision.

Inputs the server reads from the outside world are parameters:
- The file tree is a list of `DirEntry` values in the order the bottom-up
  walk yields them, each with its modification and creation times, the clock
  reading when it was reached, and its files with their modification times.
- The tag library is a map from path to `Tags`. A path missing from the map
  is a file whose tags cannot be read.
- `isfile` for prune is the set `present` of paths that are still files.
- The configuration and the `[transcoding]` section are strings and a map.
  For the values the code reads through a truth test (`scanner_extensions`
  and the `transcoder`, `decoder` and `encoder` entries), a missing value and
  an empty string are the same, as they are for Python's truth test.
  `filetypes` and `cache_dir` are used without a test and are taken to be
  set (see "Left out").
- Clock readings are `real` parameters.
- For the cover art, the image's size and the set of existing paths are
  inputs.

Where the description of the program and the code differ, the model follows
the code:
- A new folder's parent is the scan's root folder, not the directory above
  it (`scanner.py:77`).
- `prune` deletes tracks with `session.delete`, not through `__remove_track`.
  So it neither touches playlists nor counts deleted tracks.
- The track table is loaded once and never updated. A file that a scan
  adds is therefore known only to a scanner made after that scan. The lemmas
  about scanning a tree again are stated for a second scanner made from the
  catalog the first scan left.
- For the same reason, a second `prune` by the same scanner meets ids of
  tracks already deleted. On such an id
  `session.delete(None)` raises before anything is committed. The model
  returns `Failure(StaleTrack)` and leaves the state unchanged.
- A client's preferred format renames the destination but does not turn
  transcoding on (`api/media.py:131-132`).
- A decoder/encoder pair without any transcoder template makes
  `'|' in None` raise (`api/media.py:158`). The model returns
  `Failure(NoneNotIterable)`.

## Model

| member | source | states |
|---|---|---|
| Strings.Split | scanner.py:61 | `split(',')`: the pieces joined with the separator give the setting back, and no piece contains the separator |
| Strings.ReplaceIsSplitJoin | api/media.py:66-70 | `str.replace` replaces every occurrence: the result is the text split at the pattern and rejoined with the replacement |
| Strings.ParseIntSpaceAfterSign | api/media.py:110-114 | as Python 2's `int()` reads text, white space between the sign and the digits is skipped: `"- 128"` is -128 |
| Strings.ParseIntRoundTrip | api/media.py:70 | `int(str(n)) == n` for every integer: the `str()` text that replaces `%outrate` reads back as the bitrate planned |
| Strings.LowerIdempotent | scanner.py:61 | lower-casing twice is lower-casing once, so the lower-cased file types match lower-cased names as they are |
| Paths.DirnameAppend | scanner.py:157 | `dirname(u + "/" + v)` is `u` when `v` has no slash and `u` does not end in one |
| Paths.GrandparentOfNested | scanner.py:152-157 | for `d/artist/album/file`, `basename(dirname(dirname(path)))` is `artist` |
| Transcode.PrepareCmdline | api/media.py:61-64 | the result is `None` exactly when the template is empty or missing |
| Transcode.PrepareWithoutPlaceholders | api/media.py:66-70 | a template without `%` comes back unchanged |
| Transcode.PrepareQuotesPath | api/media.py:66-67 | `%srcpath` anywhere in a template becomes the source path in double quotes, with the text before and after it kept as it was |
| Transcode.PrepareSubstitutesSrcFmt | api/media.py:68 | `%srcfmt` in a template becomes the source format, with the text around it kept |
| Transcode.PrepareSubstitutesOutFmt | api/media.py:69 | `%outfmt` in a template becomes the destination format, with the text around it kept |
| Transcode.PrepareSubstitutesOutRate | api/media.py:70 | `%outrate` in a template becomes `str()` of the planned bitrate, with the text around it kept |
| Transcode.PipeSplit | api/media.py:158-162 | no split exactly when there is no `|`; otherwise decoder + `|` + encoder is the line and the decoder holds no `|` |
| Transcode.PrefsAfter | api/media.py:125-129 | a missing preferences row of the named client is created; other rows are untouched; with no client nothing changes |
| Transcode.PlanStream | api/media.py:100-141 | the step-by-step planner returns the decision table's outcome, and the preferences table with a missing row created unless the bitrate is invalid |
| Transcode.InvalidBitrateExactly | api/media.py:110-114 | planning fails exactly when `maxBitRate` is given and is not an integer, and then with the invalid-bitrate error |
| Transcode.LosslessOverride | api/media.py:137-141 | a FLAC source with no format asked is always transcoded to Ogg at 320, whatever the cap or the client preferences |
| Transcode.BitrateNeverRaised | api/media.py:104-134 | outside the lossless rule the destination bitrate never exceeds the source's, and is lower only when it equals the cap or the client's preferred bitrate |
| Transcode.CapApplied | api/media.py:110-118 | a non-zero cap below the source rate turns transcoding on and becomes the destination bitrate (lowered further only by a client's smaller preferred bitrate) |
| Transcode.FormatApplied | api/media.py:120-123 | an asked format other than `raw` and the source suffix turns transcoding on, becomes the destination suffix (unless a client's preferred format replaces it) and sets the MIME type guessed from it |
| Transcode.ClientBitrateApplied | api/media.py:125-134 | with a client's preferences, the destination bitrate is the preferred bitrate when it is non-zero and below the rate left by the cap, and that rate otherwise |
| Transcode.CappedMp3Example | api/media.py:100-141 | an MP3 at 320 kbit/s asked with `maxBitRate=128` and no format or client is transcoded to MP3 at 128, with the MIME type guessed from `a.mp3` |
| Transcode.TranscodeReasons | api/media.py:104-141 | transcoding happens exactly for a non-zero cap below the source rate, an asked format other than `raw` and the source suffix, or a FLAC source with no format |
| Transcode.PreferredFormatAloneDoesNotTranscode | api/media.py:125-134 | a stored preferred format alone renames the destination but leaves transcoding off |
| Transcode.BuildCommand | api/media.py:145-172 | template selection and the pipe split, performed step by step, give the command table's outcome |
| Transcode.SpecificTemplateFirst | api/media.py:146-162 | a set `transcoder_<src>_<dst>` is used; it is split at its first `|`, else run as one command |
| Transcode.NoWayExactly | api/media.py:146-154 | "No way to transcode" exactly when there is no specific transcoder, a decoder or an encoder is missing, and there is no generic transcoder |
| Transcode.PairAloneRaises | api/media.py:146-158 | a decoder and an encoder without any transcoder template end in the `'|' in None` error |
| Transcode.StreamMedia | api/media.py:100-183 | the raw file when the plan does not transcode; otherwise the command for the planned format pair and bitrate, or the planning or template error |
| CoverArt.SizeParameter | api/media.py:255-267 | no `size` gives the cache path `cache_dir/1000/id`; a non-integer `size` is the invalid-size error |
| CoverArt.RequestedParsed | api/media.py:256-258 | a `size` that parses as an integer is the size asked for |
| CoverArt.CachePathOfSize | api/media.py:266-270 | the cache file is `cache_dir/size/id`; the size directory is created exactly when it does not exist |
| CoverArt.ResizeDecision | api/media.py:272-288 | saved unshrunk exactly when the size exceeds both dimensions, cache or not; otherwise served from the cache exactly when cached, else shrunk and saved |
| CoverArt.SecondRequestNeverShrinks | api/media.py:266-288 | a second identical request never shrinks, uses the same cache file and creates no directory |
| Catalog.RemoveFirst | scanner.py:204 | `list.remove` takes exactly one copy of the element off. The source only removes an album that is in the list, so the absent case cannot arise there; for it the model gives the list back |
| Catalog.RemoveFirstDropsFirst | scanner.py:204 | the copy `list.remove` takes off is the first one, and the elements before and after it stay in order |
| Catalog.RemoveFirstWithout | scanner.py:204 | on a list without duplicates, removing one more album once is leaving it out of the list |
| Reconcile.NameMap | scanner.py:183 | `{a.name: a for a in ar.albums}`: each name maps to a listed album of that name, and each listed album's name is a key |
| Reconcile.NameMapLastWins | scanner.py:183 | of several albums with one name, the name maps to the last listed |
| Reconcile.FindArtistCount | scanner.py:169-181 | a known key changes nothing; a new key adds exactly that key to the table and one to `added_artists` |
| Reconcile.FindArtistNamed | scanner.py:169-179 | a new artist is named by the right-stripped name as given, not the lower-cased key |
| Reconcile.FindAlbumArtistCount | scanner.py:169-181 | through `__find_album`: a known artist key adds no artist, a new one exactly one entry and one count |
| Reconcile.FindAlbumAlbumCount | scanner.py:183-189 | an album already stored is returned with nothing changed; a new one carries the track's year and adds one to `added_albums` |
| Reconcile.FindAlbumExisting | scanner.py:170-184 | an album already listed under a known artist is found by its exact name: the album that artist's name table gives, with nothing added |
| Reconcile.FindAlbumFinds | scanner.py:166-189 | the album returned has the exact name asked for, belongs to the artist under the key, and is what that artist's name table gives |
| Reconcile.SameKeySameAlbum | scanner.py:169-189 | two artist names equal after `rstrip().lower()` resolve the same album name to the same album, and the second lookup changes nothing |
| Reconcile.FindAlbumPreserves | scanner.py:166-189 | `__find_album` keeps the catalog consistent, loses no record or table entry, and counts each artist and album it adds |
| Reconcile.UnmodifiedFileAsStored | scanner.py:106-113 | a known file with `floor(mtime)` at most its last modification gives the stored track, and nothing changes |
| Reconcile.ScanFileUnchanged | scanner.py:105-138 | unless its tags are read, a file changes nothing: unmodified, unreadable, or naming a deleted track; a stored track whose file cannot be read is returned as stored (`scanner.py:119-124`), and the walk files it again under its folder |
| Reconcile.SkippedExactly | scanner.py:105-138 | no track comes back exactly for a new file whose tags cannot be read, or a known path whose track is gone |
| Reconcile.ScanFileRefreshed | scanner.py:108-124 | a modified known file is re-read under its own id, counting no new track |
| Reconcile.ScanFileDiscovered | scanner.py:126-138 | a new readable file gives a new track and adds one to `added_tracks` |
| Reconcile.TagsApplied | scanner.py:108-164 | a new or modified readable file's track is the stored (or new) record filled from its tags, counted when new |
| Reconcile.ApplyTagsFields | scanner.py:140-162 | each field comes from its tag; last modification and creation are the floored mtime; bitrate is the tag's divided by 1000; the album has the tag's name and belongs to the album artist |
| Reconcile.AlbumArtistFallback | scanner.py:152-157 | with no album-artist tag, a file at `d/artist/album/file` is filed under `artist` |
| Reconcile.ScanFilePreserves | scanner.py:105-164 | scanning a file keeps the catalog consistent, loses nothing, and counts what it adds |
| Reconcile.StoreConsistent | scanner.py:90-93 | storing the scanned track under its folder keeps the catalog consistent |
| Reconcile.StoreKept | scanner.py:90-93 | storing adds exactly one track record for a new file and none for a known one, and loses nothing |
| Reconcile.ScanOneFilePreserves | scanner.py:86-93 | scanning and storing one file keeps the catalog consistent, loses nothing, and counts each artist, album and track added |
| Reconcile.FileTypes | scanner.py:61-62 | the accepted types are the comma-separated entries of the setting, each lower-cased |
| Reconcile.FileTypesLowerCase | scanner.py:61 | every accepted type is already lower-case |
| Reconcile.AcceptedIgnoresCase | scanner.py:85 | a file name is accepted exactly when its lower-cased form is |
| Reconcile.EmptyFileTypeAcceptsAll | scanner.py:61-62 | an empty entry in the setting (an empty setting, or a stray comma) accepts every file |
| Reconcile.ScanDirFolder | scanner.py:67-80 | a known folder modified before its last scan is passed over untouched; a known folder otherwise gets the visit time; an unknown one is added with the root as parent and its creation time |
| Reconcile.ScanFilesPreserves | scanner.py:84-98 | a folder's files keep the catalog consistent, lose nothing and are counted |
| Reconcile.ScanDirPreserves | scanner.py:65-98 | one directory of the walk keeps the catalog consistent, loses nothing and counts what it adds |
| Reconcile.ScanWalk | scanner.py:65-80 | every directory of the walk ends up in the folder table |
| Reconcile.ScanWalkPreserves | scanner.py:65-98 | the whole walk keeps the catalog consistent, loses nothing and counts what it adds |
| Reconcile.ScanPreserves | scanner.py:59-102 | a scan keeps the catalog consistent and loses nothing; the root folder's scan time is the time the scan ended |
| Pruning.Doomed | scanner.py:196-197 | the ids to delete are exactly those of table paths that are no longer files |
| Pruning.PruneFailsExactly | scanner.py:196-198 | prune fails exactly when a path that is no longer a file has an id naming no stored track |
| Pruning.PruneTracks | scanner.py:196-199 | the tracks left are exactly the stored tracks not named by a vanished path, unchanged |
| Pruning.EmptyAlbums | scanner.py:202 | the albums deleted are exactly the stored albums no track refers to |
| Pruning.LoneArtists | scanner.py:210 | the artists deleted are exactly the stored artists no album refers to |
| Pruning.PruneKeepsExactly | scanner.py:196-213 | after prune, an album remains exactly when a remaining track refers to it, an artist exactly when a remaining album does |
| Pruning.PruneValid | scanner.py:191-213 | prune keeps the catalog valid: album lists and album artists agree, and every track's album is stored |
| Pruning.PruneCounts | scanner.py:206-212 | `deleted_albums` and `deleted_artists` grow by the number of records deleted; `deleted_tracks` does not change |
| Pruning.DropFromPlaylistsEach | scanner.py:220-222 | each loaded playlist loses the first copy of the track, and the others are left as they were |
| Pruning.RemoveTrackSpec | scanner.py:215-225 | the track alone is deleted, each loaded playlist loses one copy of it, the others are untouched, and `deleted_tracks` grows by one |
| Pruning.RemoveTrackConsistent | scanner.py:215-225 | removing a track keeps the catalog and the scanner's tables consistent |
| Pruning.ScanStats | scanner.py:227-228 | after a scan, each added count in `stats` grew by the number of records of that kind the catalog gained; the deleted counts did not change |
| Scanning.Scanner.LoadTracks | scanner.py:35-36 | every stored track's path is in the table, and each entry names a stored track with that path |
| Scanning.Scanner.LoadArtists | scanner.py:39-40 | every stored artist's lower-cased name is in the table, and each entry names a stored artist with that lower-cased name |
| Scanning.Scanner.LoadFolders | scanner.py:43-44 | every stored folder's path is in the table, and each entry names a stored folder with that path |
| Scanning.Scanner.LoadPlaylists | scanner.py:47 | every stored playlist is loaded exactly once |
| Rescan.ScanOneFileQuiet | scanner.py:86-124 | a file whose tags cannot be read, or whose record is at least as recent as the file, adds no artist, album or track, applies no tags and counts nothing |
| Rescan.ScanFilesQuiet | scanner.py:84-98 | a folder whose accepted files are all of that kind adds nothing |
| Rescan.ScanDirQuiet | scanner.py:65-98 | such a directory adds nothing, whether it is passed over, revisited or new |
| Rescan.ScanWalkQuiet | scanner.py:65-98 | a walk whose accepted files are all of that kind adds no artist, album or track and leaves the counters and every track's modification time as they were |
| Rescan.ScanQuiet | scanner.py:59-102 | a scan of such a walk leaves the artists, the albums, the set of tracks and the added counters as they were |
| Rescan.OneFileAvoids | scanner.py:86-93 | scanning and storing a file leaves the tracks of every other path, and their modification times, as they were |
| Rescan.OneFileCovers | scanner.py:105-140 | after a readable file is scanned and stored, a track with its path is stored, and every track with that path is at least as recent as the file |
| Rescan.FilesCover | scanner.py:84-98 | after a folder's files are scanned, each readable accepted file has such a track |
| Rescan.WalkCovers | scanner.py:65-98 | after a walk that yields each directory and file once and passes over none, each readable accepted file has such a track |
| Rescan.FirstScanCovers | scanner.py:33-36 | a scan by a scanner made from a catalog without two tracks at one path leaves each readable accepted file of such a walk with a track at least as recent as the file |
| Rescan.LoadedQuiet | scanner.py:33-36 | a scanner made from a catalog in which those tracks are stored finds every file of the walk unmodified or unreadable |
| Rescan.RescanAddsNothing | scanner.py:33-164 | scanning the same tree again with the same tags, by a scanner made from the catalog the first scan left, adds no artist, album or track, and its added counters stay as they started |
| Scanning.Scanner.constructor | scanner.py:33-54 | the tables are complete and sound for the store, the track table names only stored tracks, the playlists are loaded once each, and the counters are zero |
| Scanning.Scanner.FindArtist | scanner.py:169-181 | the artist lookup in place ends in the state `Reconcile.FindArtist` gives, returning the id under the key |
| Scanning.Scanner.FindAlbum | scanner.py:166-189 | `__find_album` in place, with its name-table loop, ends in the state and album `Reconcile.FindAlbum` gives |
| Scanning.Scanner.ScanFile | scanner.py:105-138 | `__scan_file` in place ends in the result and state `Reconcile.ScanFile` gives |
| Scanning.Scanner.ApplyTags | scanner.py:140-164 | filling the track in place ends in the state and track `Reconcile.ApplyTags` gives |
| Scanning.Scanner.ScanFolderFiles | scanner.py:84-98 | the loop over a folder's files ends in the state `Reconcile.ScanFiles` gives |
| Scanning.Scanner.ScanDirectory | scanner.py:67-98 | one directory of the walk ends in the state `Reconcile.ScanDir` gives |
| Scanning.Scanner.Scan | scanner.py:59-102 | `scan` ends in the state `Reconcile.Scan` gives |
| Scanning.Scanner.KeptTracks | scanner.py:196-198 | the loop over the track table succeeds exactly when no vanished path names a deleted track, and then gives the tracks that stay |
| Scanning.Scanner.DeleteMissingTracks | scanner.py:196-199 | the first stage deletes the tracks of vanished paths, or fails on a stale id with nothing changed |
| Scanning.Scanner.DeleteAlbums | scanner.py:202-206 | the album loop, in any order, deletes exactly the empty albums, takes each off its artist's list, and counts one per album |
| Scanning.Scanner.DeleteOneAlbum | scanner.py:204-205 | one album taken off its artist's list and deleted is one more album of the stage done |
| Scanning.Scanner.DeleteEmptyAlbums | scanner.py:201-207 | the second stage ends in the catalog without empty albums, counted |
| Scanning.Scanner.DeleteLoneArtists | scanner.py:209-213 | the third stage ends in the catalog without artists that have no album, counted |
| Scanning.Scanner.DeleteEmpties | scanner.py:201-213 | the second and third stages after a successful first one end in the state `Pruning.Prune` gives |
| Scanning.Scanner.Prune | scanner.py:191-213 | `prune` fails exactly when `Pruning.Prune` does, then with nothing changed, and otherwise ends in its state |
| Scanning.Scanner.RemoveTrack | scanner.py:215-225 | `__remove_track`, with its playlist loop, ends in the state `Pruning.RemoveTrack` gives |
| Scanning.Scanner.Stats | scanner.py:227-228 | `stats` returns the six counters as two triples |

## Left out

- File-system access (`os.walk`, `getmtime`, `getctime`, `isfile`) and the clock are inputs, as described above.
- Reading the tags is an input map. The tag library's own parsing, `None` tag values and exceptions part-way through filling a track are not modelled.
- Text is lower-cased and stripped in ASCII only. Python's Unicode case mapping and white-space classes are not modelled.
- `db.py` is not part of this model. The ORM session is the `db` field:
  - each `commit` is the assignment of a stage's result;
  - flushes, rollbacks and transaction isolation are not modelled;
  - nor is the order in which queries return rows (every loop over a query is proved for any order).
- Back-references are not modelled as lists. Album and folder track lists are the tracks referring to them, so deleting a track detaches it from both (`scanner.py:216-217`).
- A folder's `last_scan` column default is modelled as "never scanned", earlier than any time.
- The `__extensions` setting (`scanner.py:56-57`) is read but never used, so it is left out. The `folder` argument of `prune` is also unused.
- After `prune` the scanner's artist and folder tables may name deleted records, as in the source. The model proves only the catalog's validity after prune, not the soundness of those tables.
- Scanning.Scanner.Scan: requires the artist and folder tables to name stored records (`Wf`). The constructor and every scan step establish this, but a prune can break it. What the source does when it scans with deleted ORM objects still in its tables is not modelled.
- The `filetypes` and `cache_dir` settings are taken to be set. The source reads them without a truth test (`scanner.py:61`, `api/media.py:266`), so a missing value raises there; the model has no such error path.
- Rescan.RescanAddsNothing: it assumes a walk that yields each directory and each file path once (as `os.walk` does), a first scan that passes over no folder as unmodified, and a starting catalog without two tracks at one path. A folder the first scan passes over keeps files it never read, and duplicate paths let the track table pick an older record. Folder scan times do change on the second scan, and the lemma says nothing about them.
- Logging, the terminal output of new artists, and `traceback` output are left out.
- MIME types are not modelled: `mimetypes.guess_type` becomes the name it is asked about.
- `shlex.split`, `subprocess.Popen` and the streaming generator are not modelled. A failure inside that block is the `ProcessFailed` outcome, raised only where a command string is missing.
- The track duration read through `mutagen` is not modelled.
- The play-count update after streaming is not modelled.
- PIL's `Image.open`, `thumbnail` and `save`, `send_file` and the X-Sendfile headers are not modelled. The image's size is an input.
- The search for a cover file (`listdir`, `fnmatch` of `*.jp*g`) and the embedded-art loop are left out. The decision starts from the image found.
- `download_media`, the lyrics endpoint and the Flask request hooks are outside the modelled core.
