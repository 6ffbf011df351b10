/**
 * What one scanner instance does to its lookup tables, its counters and the
 * catalog during a scan, written as functions from one state to the next.
 * The class in scanner.dfy performs the same steps in place and is proved
 * to end in the states these functions give; the lemmas below are the
 * properties of the scanner stated on them.
 */
module Reconcile {
  import opened Wrappers
  import opened Strings
  import opened Paths
  import opened Catalog

  // ---------------------------------------------------------------------
  // Inputs: what the tag library reads, and a snapshot of the file tree

  /** The fields read from a file's tags; `bitrate` is in bit/s. */
  datatype Tags = Tags(
    disc: int, track: int, title: string, year: int, genre: string,
    artist: string, albumArtist: string, album: string, bitrate: int, length: int)

  datatype FileEntry = FileEntry(name: string, mtime: real)

  /** One directory as the bottom-up walk yields it: its path, modification
      and creation times, the clock reading when the walk reached it, and its
      files. */
  datatype DirEntry = DirEntry(path: string, mtime: real, ctime: real, visitedAt: real, files: seq<FileEntry>)

  // ---------------------------------------------------------------------
  // The scanner's state

  datatype Counters = Counters(
    addedArtists: nat, addedAlbums: nat, addedTracks: nat,
    deletedArtists: nat, deletedAlbums: nat, deletedTracks: nat)

  /** The three lookup tables loaded when the scanner is made (track path to
      id, lower-cased artist name to artist, folder path to folder), the
      playlists it loaded, its six counters, and the catalog. */
  datatype ScannerState = ScannerState(
    trackIndex: map<string, Id>,
    artistIndex: map<string, Id>,
    folderIndex: map<string, Id>,
    playlists: seq<Id>,
    counters: Counters,
    db: Catalog)

  /** The artist and folder tables point at stored records: what the scan
      needs to look them up. */
  predicate Wf(s: ScannerState) {
    && (forall k :: k in s.artistIndex ==> s.artistIndex[k] in s.db.artists)
    && (forall p :: p in s.folderIndex ==> s.folderIndex[p] in s.db.folders)
  }

  /** Each lookup table points at a record with that key; the track table
      may point at tracks deleted since it was loaded, but never at an id not
      yet handed out; the loaded playlists are stored. */
  predicate IndexSound(s: ScannerState) {
    && (forall k :: k in s.artistIndex ==>
          s.artistIndex[k] in s.db.artists && Lower(s.db.artists[s.artistIndex[k]].name) == k)
    && (forall p :: p in s.folderIndex ==>
          s.folderIndex[p] in s.db.folders && s.db.folders[s.folderIndex[p]].path == p)
    && (forall p :: p in s.trackIndex ==> s.trackIndex[p] < s.db.nextId)
    && (forall p :: p in s.trackIndex && s.trackIndex[p] in s.db.tracks ==>
          s.db.tracks[s.trackIndex[p]].path == p)
    && (forall i :: 0 <= i < |s.playlists| ==> s.playlists[i] in s.db.playlists)
  }

  predicate Consistent(s: ScannerState) {
    Valid(s.db) && IndexSound(s)
  }

  /** What a scan keeps: the track table and the playlists, every record and
      every table entry, and the deletion counters. */
  predicate Kept(s: ScannerState, r: ScannerState) {
    && r.trackIndex == s.trackIndex
    && r.playlists == s.playlists
    && r.db.playlists == s.db.playlists
    && s.db.tracks.Keys <= r.db.tracks.Keys
    && s.db.albums.Keys <= r.db.albums.Keys
    && s.db.artists.Keys <= r.db.artists.Keys
    && s.db.folders.Keys <= r.db.folders.Keys
    && (forall k :: k in s.artistIndex ==> k in r.artistIndex && r.artistIndex[k] == s.artistIndex[k])
    && (forall p :: p in s.folderIndex ==> p in r.folderIndex && r.folderIndex[p] == s.folderIndex[p])
    && r.counters.deletedArtists == s.counters.deletedArtists
    && r.counters.deletedAlbums == s.counters.deletedAlbums
    && r.counters.deletedTracks == s.counters.deletedTracks
  }

  /** Each added artist and each added album is one more record. */
  predicate Counted(s: ScannerState, r: ScannerState) {
    && |r.db.artists| - r.counters.addedArtists == |s.db.artists| - s.counters.addedArtists
    && |r.db.albums| - r.counters.addedAlbums == |s.db.albums| - s.counters.addedAlbums
  }

  /** Each added track is one more track record. */
  predicate TracksCounted(s: ScannerState, r: ScannerState) {
    |r.db.tracks| - r.counters.addedTracks == |s.db.tracks| - s.counters.addedTracks
  }

  /** Scanning files touches no folder. */
  predicate FoldersAlone(s: ScannerState, r: ScannerState) {
    r.db.folders == s.db.folders && r.folderIndex == s.folderIndex
  }

  /** Resolving artists and albums touches neither tracks nor folders. */
  predicate TracksAndFoldersAlone(s: ScannerState, r: ScannerState) {
    && r.db.tracks == s.db.tracks
    && r.db.folders == s.db.folders
    && r.folderIndex == s.folderIndex
    && r.counters.addedTracks == s.counters.addedTracks
  }

  // ---------------------------------------------------------------------
  // Artists and albums

  /** The artist lookup key: trailing white space dropped, lower-cased. */
  function Key(name: string): string {
    Lower(RStrip(name))
  }

  /** `{a.name: a for a in ids}`: every listed album's name is a key, and
      each key maps to a listed album of that name. */
  function NameMap(albums: map<Id, Album>, ids: seq<Id>): (m: map<string, Id>)
    ensures forall n :: n in m ==> m[n] in albums && m[n] in ids && albums[m[n]].name == n
    ensures forall i :: 0 <= i < |ids| && ids[i] in albums ==> albums[ids[i]].name in m
    decreases |ids|
  {
    if ids == [] then map[]
    else
      var last := ids[|ids| - 1];
      var m := NameMap(albums, ids[..|ids| - 1]);
      assert forall i :: 0 <= i < |ids| - 1 ==> ids[..|ids| - 1][i] == ids[i];
      if last in albums then m[albums[last].name := last] else m
  }

  /** The last album of the list with a given name is the one the name maps
      to: no album of that name comes after it. */
  lemma {:induction false} NameMapLastWins(albums: map<Id, Album>, ids: seq<Id>, j: int)
    requires 0 <= j < |ids| && ids[j] in albums
    ensures exists i :: j <= i < |ids| && ids[i] == NameMap(albums, ids)[albums[ids[j]].name]
    decreases |ids|
  {
    var n := albums[ids[j]].name;
    var last := ids[|ids| - 1];
    var m := NameMap(albums, ids);
    if last in albums && albums[last].name == n {
      assert ids[|ids| - 1] == m[n];
    } else {
      assert j < |ids| - 1;
      var front := ids[..|ids| - 1];
      assert front[j] == ids[j];
      NameMapLastWins(albums, front, j);
      var i :| j <= i < |front| && front[i] == NameMap(albums, front)[n];
      assert ids[i] == m[n];
    }
  }

  /** The name table depends only on the listed albums. */
  lemma {:induction false} NameMapFrame(a1: map<Id, Album>, a2: map<Id, Album>, ids: seq<Id>)
    requires forall i :: 0 <= i < |ids| ==> ids[i] in a1 && ids[i] in a2 && a1[ids[i]] == a2[ids[i]]
    ensures NameMap(a1, ids) == NameMap(a2, ids)
    decreases |ids|
  {
    if ids != [] {
      NameMapFrame(a1, a2, ids[..|ids| - 1]);
    }
  }

  /** A new artist record for `name`, entered under its lower-cased name. */
  function AddArtist(s: ScannerState, name: string): (r: ScannerState)
    requires Wf(s)
    ensures Wf(r) && TracksAndFoldersAlone(s, r)
    ensures Lower(name) in r.artistIndex
  {
    s.(db := WithArtist(s.db, name),
       artistIndex := s.artistIndex[Lower(name) := s.db.nextId],
       counters := s.counters.(addedArtists := s.counters.addedArtists + 1))
  }

  /** A new album `name` of artist `ar`, appended to the artist's list. */
  function AddAlbum(s: ScannerState, ar: Id, name: string, year: int): (r: (ScannerState, Id))
    requires Wf(s) && ar in s.db.artists
    ensures Wf(r.0) && TracksAndFoldersAlone(s, r.0)
  {
    (s.(db := WithAlbum(s.db, ar, name, year),
        counters := s.counters.(addedAlbums := s.counters.addedAlbums + 1)),
     s.db.nextId)
  }

  /** The artist part of `__find_album`: looked up by key, created if missing. */
  function FindArtist(s: ScannerState, artist: string): (r: ScannerState)
    requires Wf(s)
    ensures Wf(r) && TracksAndFoldersAlone(s, r)
    ensures Key(artist) in r.artistIndex
  {
    var name := RStrip(artist);
    if Lower(name) in s.artistIndex then s else AddArtist(s, name)
  }

  /** The album part of `__find_album`: looked up by exact name among the
      artist's albums, created with the given year if missing. */
  function FindAlbumOf(s: ScannerState, ar: Id, album: string, year: int): (r: (ScannerState, Id))
    requires Wf(s) && ar in s.db.artists
    ensures Wf(r.0) && TracksAndFoldersAlone(s, r.0)
  {
    var byName := NameMap(s.db.albums, s.db.artists[ar].albums);
    if album in byName then (s, byName[album]) else AddAlbum(s, ar, album, year)
  }

  /** `__find_album` */
  function FindAlbum(s: ScannerState, artist: string, album: string, year: int): (r: (ScannerState, Id))
    requires Wf(s)
    ensures Wf(r.0) && TracksAndFoldersAlone(s, r.0)
  {
    var s1 := FindArtist(s, artist);
    FindAlbumOf(s1, s1.artistIndex[Key(artist)], album, year)
  }

  lemma AddArtistIndexSound(s: ScannerState, name: string)
    requires IndexSound(s) && IdsBelow(s.db)
    ensures IndexSound(AddArtist(s, name))
  {
    var r := AddArtist(s, name);
    forall k | k in r.artistIndex
      ensures r.artistIndex[k] in r.db.artists && Lower(r.db.artists[r.artistIndex[k]].name) == k
    {
      if k != Lower(name) {
        assert s.artistIndex[k] < s.db.nextId;
      }
    }
  }

  lemma AddArtistConsistent(s: ScannerState, name: string)
    requires Consistent(s)
    ensures Consistent(AddArtist(s, name))
  {
    WithArtistValid(s.db, name);
    AddArtistIndexSound(s, name);
  }

  lemma AddArtistKept(s: ScannerState, name: string)
    requires Wf(s) && Lower(name) !in s.artistIndex && s.db.nextId !in s.db.artists
    ensures var r := AddArtist(s, name); Kept(s, r) && Counted(s, r)
  {
  }

  lemma AddArtistPreserves(s: ScannerState, name: string)
    requires Consistent(s) && Lower(name) !in s.artistIndex
    ensures var r := AddArtist(s, name); Consistent(r) && Kept(s, r) && Counted(s, r)
  {
    AddArtistConsistent(s, name);
    AddArtistKept(s, name);
  }

  lemma AddAlbumIndexSound(s: ScannerState, ar: Id, name: string, year: int)
    requires IndexSound(s) && ar in s.db.artists
    ensures IndexSound(AddAlbum(s, ar, name, year).0)
  {
  }

  lemma AddAlbumConsistent(s: ScannerState, ar: Id, name: string, year: int)
    requires Consistent(s) && ar in s.db.artists
    ensures Consistent(AddAlbum(s, ar, name, year).0)
  {
    WithAlbumValid(s.db, ar, name, year);
    AddAlbumIndexSound(s, ar, name, year);
  }

  lemma AddAlbumKept(s: ScannerState, ar: Id, name: string, year: int)
    requires Wf(s) && ar in s.db.artists && s.db.nextId !in s.db.albums
    ensures var (r, id) := AddAlbum(s, ar, name, year);
            Kept(s, r) && Counted(s, r) && id !in s.db.albums && id in r.db.albums
  {
  }

  lemma AddAlbumPreserves(s: ScannerState, ar: Id, name: string, year: int)
    requires Consistent(s) && ar in s.db.artists
    ensures var (r, id) := AddAlbum(s, ar, name, year);
            && Consistent(r) && Kept(s, r) && Counted(s, r)
            && id !in s.db.albums && id in r.db.albums
  {
    AddAlbumConsistent(s, ar, name, year);
    AddAlbumKept(s, ar, name, year);
  }

  /** `__find_album` keeps the catalog consistent, loses nothing, counts
      what it adds, and returns a stored album. */
  lemma FindAlbumPreserves(s: ScannerState, artist: string, album: string, year: int)
    requires Consistent(s)
    ensures var (r, id) := FindAlbum(s, artist, album, year);
            Consistent(r) && Kept(s, r) && Counted(s, r) && id in r.db.albums
  {
    var s1 := FindArtist(s, artist);
    if Key(artist) !in s.artistIndex {
      AddArtistPreserves(s, RStrip(artist));
    }
    var ar := s1.artistIndex[Key(artist)];
    if album !in NameMap(s1.db.albums, s1.db.artists[ar].albums) {
      AddAlbumPreserves(s1, ar, album, year);
    }
  }

  /** A new album is what the artist's name table gives for its name. */
  lemma AddAlbumFound(s: ScannerState, ar: Id, album: string, year: int)
    requires Consistent(s) && ar in s.db.artists
    ensures var (r, id) := AddAlbum(s, ar, album, year);
            NameMap(r.db.albums, r.db.artists[ar].albums)[album] == id
  {
    var own := s.db.artists[ar].albums;
    var r := AddAlbum(s, ar, album, year);
    var own' := r.0.db.artists[ar].albums;
    assert own'[..|own'| - 1] == own;
    NameMapFrame(s.db.albums, r.0.db.albums, own);
  }

  /** The album found or made carries the name asked for, belongs to the
      artist, and is what the artist's name table now gives for that name;
      the artist keeps its name. */
  lemma FindAlbumOfFinds(s: ScannerState, ar: Id, album: string, year: int)
    requires Consistent(s) && ar in s.db.artists
    ensures var (r, id) := FindAlbumOf(s, ar, album, year);
            && ar in r.db.artists && r.db.artists[ar].name == s.db.artists[ar].name
            && id in r.db.albums
            && r.db.albums[id].artist == ar
            && r.db.albums[id].name == album
            && NameMap(r.db.albums, r.db.artists[ar].albums)[album] == id
  {
    if album !in NameMap(s.db.albums, s.db.artists[ar].albums) {
      AddAlbumFound(s, ar, album, year);
    }
  }

  /** The album `__find_album` returns carries the name asked for, belongs
      to the artist under the name's key, and is what that artist's name
      table gives for the name. */
  lemma FindAlbumFinds(s: ScannerState, artist: string, album: string, year: int)
    requires Consistent(s)
    ensures var (r, id) := FindAlbum(s, artist, album, year);
            && Key(artist) in r.artistIndex
            && r.artistIndex[Key(artist)] in r.db.artists
            && id in r.db.albums
            && r.db.albums[id].artist == r.artistIndex[Key(artist)]
            && r.db.albums[id].name == album
            && NameMap(r.db.albums, r.db.artists[r.artistIndex[Key(artist)]].albums)[album] == id
  {
    var s1 := FindArtist(s, artist);
    if Key(artist) !in s.artistIndex {
      AddArtistPreserves(s, RStrip(artist));
    }
    FindAlbumOfFinds(s1, s1.artistIndex[Key(artist)], album, year);
  }

  lemma FindArtistCount(s: ScannerState, artist: string)
    requires Consistent(s)
    ensures var r := FindArtist(s, artist);
            && (Key(artist) in s.artistIndex ==> r == s)
            && (Key(artist) !in s.artistIndex ==>
                  && r.artistIndex.Keys == s.artistIndex.Keys + {Key(artist)}
                  && r.counters.addedArtists == s.counters.addedArtists + 1)
  {
  }

  lemma FindArtistNamed(s: ScannerState, artist: string)
    requires Consistent(s) && Key(artist) !in s.artistIndex
    ensures var r := FindArtist(s, artist);
            r.db.artists[r.artistIndex[Key(artist)]].name == RStrip(artist)
  {
  }

  /** An artist key already known adds no artist; a new key adds exactly one
      table entry and one artist, named without its trailing white space. */
  lemma FindAlbumArtistCount(s: ScannerState, artist: string, album: string, year: int)
    requires Consistent(s)
    ensures var r := FindAlbum(s, artist, album, year).0;
            && (Key(artist) in s.artistIndex ==>
                  r.artistIndex == s.artistIndex && r.counters.addedArtists == s.counters.addedArtists)
            && (Key(artist) !in s.artistIndex ==>
                  && r.artistIndex.Keys == s.artistIndex.Keys + {Key(artist)}
                  && r.counters.addedArtists == s.counters.addedArtists + 1
                  && r.db.artists[r.artistIndex[Key(artist)]].name == RStrip(artist))
  {
    var s1 := FindArtist(s, artist);
    FindArtistCount(s, artist);
    if Key(artist) !in s.artistIndex {
      AddArtistPreserves(s, RStrip(artist));
      FindArtistNamed(s, artist);
    }
    FindAlbumOfFinds(s1, s1.artistIndex[Key(artist)], album, year);
  }

  /** An album already listed under an artist already known is found by its
      exact name: the album the artist's name table gives, nothing added. */
  lemma FindAlbumExisting(s: ScannerState, artist: string, album: string, year: int)
    requires Consistent(s) && Key(artist) in s.artistIndex
    requires var ar := s.artistIndex[Key(artist)];
      ar in s.db.artists &&
      exists i :: 0 <= i < |s.db.artists[ar].albums| && s.db.artists[ar].albums[i] in s.db.albums
        && s.db.albums[s.db.artists[ar].albums[i]].name == album
    ensures var ar := s.artistIndex[Key(artist)];
      var byName := NameMap(s.db.albums, s.db.artists[ar].albums);
      album in byName && FindAlbum(s, artist, album, year) == (s, byName[album])
  {
    FindArtistCount(s, artist);
  }

  /** An album already stored is returned with nothing changed; a new one is
      counted and gets the year given. */
  lemma FindAlbumAlbumCount(s: ScannerState, artist: string, album: string, year: int)
    requires Consistent(s)
    ensures var (r, id) := FindAlbum(s, artist, album, year);
            && (id in s.db.albums ==> r == s)
            && (id !in s.db.albums ==>
                  id in r.db.albums && r.db.albums[id].year == year
                  && r.counters.addedAlbums == s.counters.addedAlbums + 1)
  {
    var s1 := FindArtist(s, artist);
    if Key(artist) !in s.artistIndex {
      AddArtistPreserves(s, RStrip(artist));
    }
    var ar := s1.artistIndex[Key(artist)];
    if album !in NameMap(s1.db.albums, s1.db.artists[ar].albums) {
      AddAlbumPreserves(s1, ar, album, year);
    }
  }

  /** Two artist names with the same key, asking for the same album name,
      resolve to the same album: the second lookup finds what the first
      found or made, and changes nothing. */
  lemma SameKeySameAlbum(s: ScannerState, artist1: string, artist2: string, album: string, year1: int, year2: int)
    requires Consistent(s) && Key(artist1) == Key(artist2)
    ensures var first := FindAlbum(s, artist1, album, year1);
            FindAlbum(first.0, artist2, album, year2) == first
  {
    FindAlbumFinds(s, artist1, album, year1);
  }

  // ---------------------------------------------------------------------
  // One file

  /** What `__scan_file` hands back: nothing, or a track record, with its id
      when the track was already in the catalog. */
  datatype FileResult = Skipped | Scanned(known: Option<Id>, track: Track)

  /** The record `Track(path = path)` before its fields are filled in. */
  function NewTrack(path: string): Track {
    Track(path, None, 0, 0, 0, "", 0, "", "", 0, 0, 0, 0)
  }

  /** The album artist used for a file: the tag, or the name of the folder
      two levels up when the tag is empty. */
  function AlbumArtist(path: string, t: Tags): string {
    if t.albumArtist == "" then GrandparentName(path) else t.albumArtist
  }

  /** Fill a track's fields from its tags and resolve its album. */
  function ApplyTags(s: ScannerState, path: string, tr: Track, cur: int, t: Tags): (r: (ScannerState, Track))
    requires Wf(s)
    ensures Wf(r.0) && TracksAndFoldersAlone(s, r.0)
  {
    var found := FindAlbum(s, AlbumArtist(path, t), t.album, t.year);
    (found.0, tr.(lastModification := cur, disc := t.disc, number := t.track, title := t.title,
                  year := t.year, genre := t.genre, artist := t.artist, bitrate := t.bitrate / 1000,
                  duration := t.length, created := cur, album := found.1))
  }

  /** `__scan_file` for a file with modification time `mtime` and the tags
      the tag library reads from it (`None` when reading fails).  A path
      whose id no longer names a track makes the lookup fail, and the walk
      passes over the file. */
  function ScanFile(s: ScannerState, path: string, mtime: real, tags: Option<Tags>): (r: (FileResult, ScannerState))
    requires Wf(s)
    ensures Wf(r.1) && FoldersAlone(s, r.1) && r.1.db.tracks == s.db.tracks
  {
    var cur := mtime.Floor;
    if path in s.trackIndex then
      var id := s.trackIndex[path];
      if id !in s.db.tracks then (Skipped, s)
      else
        var tr := s.db.tracks[id];
        if cur <= tr.lastModification then (Scanned(Some(id), tr), s)
        else if tags.None? then (Scanned(Some(id), tr), s)
        else
          var filled := ApplyTags(s, path, tr, cur, tags.value);
          (Scanned(Some(id), filled.1), filled.0)
    else if tags.None? then (Skipped, s)
    else
      var filled := ApplyTags(CountTrack(s), path, NewTrack(path), cur, tags.value);
      (Scanned(None, filled.1), filled.0)
  }

  /** The walk's `scanned_file.folder = folder; session.add(scanned_file)`:
      a scanned track is stored under its id, or under a new id when it is
      new, with its folder set. */
  function Store(s: ScannerState, res: FileResult, fid: Id): (r: ScannerState)
    requires Wf(s)
    ensures Wf(r) && FoldersAlone(s, r)
    ensures r.artistIndex == s.artistIndex && r.trackIndex == s.trackIndex
    ensures r.playlists == s.playlists && r.counters == s.counters
    ensures r.db.artists == s.db.artists && r.db.albums == s.db.albums && r.db.playlists == s.db.playlists
    ensures s.db.tracks.Keys <= r.db.tracks.Keys
  {
    match res
    case Skipped => s
    case Scanned(known, tr) =>
      var stored := tr.(folder := Some(fid));
      match known
      case Some(id) => s.(db := s.db.(tracks := s.db.tracks[id := stored]))
      case None => s.(db := WithTrack(s.db, stored))
  }

  /** The tags the library reads from `path`, if it can. */
  function TagsOf(tags: map<string, Tags>, path: string): Option<Tags> {
    if path in tags then Some(tags[path]) else None
  }

  /** Scan one file of folder `fid` and store the result. */
  function ScanOneFile(s: ScannerState, fid: Id, path: string, mtime: real, tags: map<string, Tags>): (r: ScannerState)
    requires Wf(s)
    ensures Wf(r) && FoldersAlone(s, r)
  {
    var res := ScanFile(s, path, mtime, TagsOf(tags, path));
    Store(res.1, res.0, fid)
  }

  /** What storing a scanned result needs: the track has this path and a
      stored album, and a known track is the one the track table gives. */
  predicate StoreReady(s: ScannerState, res: FileResult, path: string) {
    res.Scanned? ==>
      && res.track.path == path
      && res.track.album in s.db.albums
      && (res.known.Some? ==>
            path in s.trackIndex && s.trackIndex[path] == res.known.value && res.known.value in s.db.tracks)
  }

  lemma ApplyTagsPreserves(s: ScannerState, path: string, tr: Track, cur: int, t: Tags)
    requires Consistent(s)
    ensures var (r, tr') := ApplyTags(s, path, tr, cur, t);
            Consistent(r) && Kept(s, r) && Counted(s, r) && tr'.album in r.db.albums
  {
    FindAlbumPreserves(s, AlbumArtist(path, t), t.album, t.year);
  }

  /** The counter update for a new track, before its tags are applied. */
  function CountTrack(s: ScannerState): (r: ScannerState)
    ensures r.db == s.db && r.artistIndex == s.artistIndex && r.trackIndex == s.trackIndex
    ensures r.folderIndex == s.folderIndex && r.playlists == s.playlists
  {
    s.(counters := s.counters.(addedTracks := s.counters.addedTracks + 1))
  }

  lemma CountTrackPreserves(s: ScannerState)
    requires Consistent(s)
    ensures var r := CountTrack(s);
            && Consistent(r) && Kept(s, r) && Counted(s, r)
            && r.counters.addedTracks == s.counters.addedTracks + 1
  {
  }

  /** A modified file whose track is stored: its tags are applied. */
  lemma ScanFileRefreshed(s: ScannerState, path: string, mtime: real, t: Tags)
    requires Consistent(s) && path in s.trackIndex && s.trackIndex[path] in s.db.tracks
    requires s.db.tracks[s.trackIndex[path]].lastModification < mtime.Floor
    ensures var (res, r) := ScanFile(s, path, mtime, Some(t));
            && Consistent(r) && Kept(s, r) && Counted(s, r)
            && StoreReady(r, res, path) && r.counters.addedTracks == s.counters.addedTracks
            && res.Scanned? && res.known.Some?
  {
    ApplyTagsPreserves(s, path, s.db.tracks[s.trackIndex[path]], mtime.Floor, t);
  }

  /** A file not yet in the track table, whose tags can be read. */
  lemma ScanFileDiscovered(s: ScannerState, path: string, mtime: real, t: Tags)
    requires Consistent(s) && path !in s.trackIndex
    ensures var (res, r) := ScanFile(s, path, mtime, Some(t));
            && Consistent(r) && Kept(s, r) && Counted(s, r)
            && StoreReady(r, res, path) && r.counters.addedTracks == s.counters.addedTracks + 1
            && res.Scanned? && res.known.None?
  {
    CountTrackPreserves(s);
    ApplyTagsPreserves(CountTrack(s), path, NewTrack(path), mtime.Floor, t);
  }

  /** Scanning a file keeps the catalog consistent, loses nothing and
      counts every artist and album it adds; a scanned track is ready to
      store, and only a new one is counted as an added track. */
  lemma ScanFilePreserves(s: ScannerState, path: string, mtime: real, tags: Option<Tags>)
    requires Consistent(s)
    ensures var (res, r) := ScanFile(s, path, mtime, tags);
            && Consistent(r) && Kept(s, r) && Counted(s, r) && StoreReady(r, res, path)
            && r.counters.addedTracks == s.counters.addedTracks + (if res.Scanned? && res.known.None? then 1 else 0)
  {
    if path in s.trackIndex && s.trackIndex[path] in s.db.tracks {
      var tr := s.db.tracks[s.trackIndex[path]];
      if tags.Some? && tr.lastModification < mtime.Floor {
        ScanFileRefreshed(s, path, mtime, tags.value);
      }
    } else if path !in s.trackIndex && tags.Some? {
      ScanFileDiscovered(s, path, mtime, tags.value);
    }
  }

  lemma StoreIndexSound(s: ScannerState, res: FileResult, path: string, fid: Id)
    requires IndexSound(s) && IdsBelow(s.db) && StoreReady(s, res, path)
    ensures IndexSound(Store(s, res, fid))
  {
  }

  lemma StoreConsistent(s: ScannerState, res: FileResult, path: string, fid: Id)
    requires Consistent(s) && fid in s.db.folders && StoreReady(s, res, path)
    ensures Consistent(Store(s, res, fid))
  {
    StoreIndexSound(s, res, path, fid);
    if res.Scanned? {
      var stored := res.track.(folder := Some(fid));
      if res.known.Some? {
        PutTrackValid(s.db, res.known.value, stored);
      } else {
        WithTrackValid(s.db, stored);
      }
    }
  }

  lemma StoreKept(s: ScannerState, res: FileResult, path: string, fid: Id)
    requires Wf(s) && s.db.nextId !in s.db.tracks && StoreReady(s, res, path)
    ensures var r := Store(s, res, fid);
            && Kept(s, r) && Counted(s, r) && r.counters == s.counters
            && |r.db.tracks| == |s.db.tracks| + (if res.Scanned? && res.known.None? then 1 else 0)
  {
  }

  /** Scanning and storing one file keeps the catalog consistent, loses
      nothing, and counts every record it adds. */
  lemma ScanOneFilePreserves(s: ScannerState, fid: Id, path: string, mtime: real, tags: map<string, Tags>)
    requires Consistent(s) && fid in s.db.folders
    ensures var r := ScanOneFile(s, fid, path, mtime, tags);
            Consistent(r) && Kept(s, r) && Counted(s, r) && TracksCounted(s, r)
  {
    var res := ScanFile(s, path, mtime, TagsOf(tags, path));
    ScanFilePreserves(s, path, mtime, TagsOf(tags, path));
    StoreConsistent(res.1, res.0, path, fid);
    StoreKept(res.1, res.0, path, fid);
  }

  // ---------------------------------------------------------------------
  // Folders and the walk

  /** The lower-cased entries of the comma-separated `filetypes` setting. */
  function FileTypes(setting: string): (r: seq<string>)
    ensures |r| == |Split(setting, ",")|
    ensures forall i :: 0 <= i < |r| ==> r[i] == Lower(Split(setting, ",")[i])
  {
    var parts := Split(setting, ",");
    seq(|parts|, i requires 0 <= i < |parts| => Lower(parts[i]))
  }

  /** `f.lower().endswith(valid)` */
  predicate Accepted(name: string, valid: seq<string>) {
    exists i :: 0 <= i < |valid| && EndsWith(Lower(name), valid[i])
  }

  /** One entry of a folder's listing: a file of an accepted type is
      scanned and stored under the folder; any other is passed over. */
  function ScanEntry(s: ScannerState, dir: string, fid: Id, f: FileEntry, valid: seq<string>, tags: map<string, Tags>): (r: ScannerState)
    requires Wf(s)
    ensures Wf(r) && FoldersAlone(s, r)
  {
    if Accepted(f.name, valid) then ScanOneFile(s, fid, Join(dir, f.name), f.mtime, tags) else s
  }

  /** The files of one folder, in the order the listing gives them. */
  function ScanFiles(s: ScannerState, dir: string, fid: Id, files: seq<FileEntry>, valid: seq<string>, tags: map<string, Tags>): (r: ScannerState)
    requires Wf(s)
    ensures Wf(r) && FoldersAlone(s, r)
    decreases |files|
  {
    if files == [] then s
    else ScanEntry(ScanFiles(s, dir, fid, files[..|files| - 1], valid, tags), dir, fid, files[|files| - 1], valid, tags)
  }

  /** `mod_time < folder.last_scan`, where a folder never scanned carries
      the column's default, earlier than any time. */
  predicate ScannedSince(mtime: real, lastScan: Option<real>) {
    lastScan.Some? && mtime < lastScan.value
  }

  /** A known folder's new scan time. */
  function Visited(s: ScannerState, fid: Id, at: real): ScannerState
    requires fid in s.db.folders
  {
    s.(db := s.db.(folders := s.db.folders[fid := s.db.folders[fid].(lastScan := Some(at))]))
  }

  /** A new folder under the scan's root. */
  function Added(s: ScannerState, root: Id, d: DirEntry): ScannerState {
    s.(db := WithFolder(s.db, Folder(d.path, Some(root), d.ctime, None)),
       folderIndex := s.folderIndex[d.path := s.db.nextId])
  }

  /** One directory of the walk: a known folder not modified since its last
      scan is passed over entirely; a known folder otherwise gets its scan
      time and its files scanned; an unknown one becomes a folder whose
      parent is the scan's root folder, and its files are scanned. */
  function ScanDir(s: ScannerState, root: Id, d: DirEntry, valid: seq<string>, tags: map<string, Tags>): (r: ScannerState)
    requires Wf(s)
    ensures Wf(r) && s.db.folders.Keys <= r.db.folders.Keys
    ensures s.folderIndex.Keys <= r.folderIndex.Keys && d.path in r.folderIndex
  {
    if d.path in s.folderIndex then
      var fid := s.folderIndex[d.path];
      var folder := s.db.folders[fid];
      if ScannedSince(d.mtime, folder.lastScan) then s
      else
        ScanFiles(Visited(s, fid, d.visitedAt), d.path, fid, d.files, valid, tags)
    else
      ScanFiles(Added(s, root, d), d.path, s.db.nextId, d.files, valid, tags)
  }

  /** The directories of the walk, in the order the walk yields them. */
  function ScanWalk(s: ScannerState, root: Id, walk: seq<DirEntry>, valid: seq<string>, tags: map<string, Tags>): (r: ScannerState)
    requires Wf(s)
    ensures Wf(r) && s.db.folders.Keys <= r.db.folders.Keys
    ensures s.folderIndex.Keys <= r.folderIndex.Keys
    ensures forall i :: 0 <= i < |walk| ==> walk[i].path in r.folderIndex
    decreases |walk|
  {
    if walk == [] then s
    else
      var s1 := ScanWalk(s, root, walk[..|walk| - 1], valid, tags);
      ScanDir(s1, root, walk[|walk| - 1], valid, tags)
  }

  /** `scan`: the whole walk, then the root folder's scan time. */
  function Scan(s: ScannerState, root: Id, walk: seq<DirEntry>, filetypes: string, tags: map<string, Tags>, finished: real): (r: ScannerState)
    requires Wf(s) && root in s.db.folders
    ensures Wf(r)
  {
    Visited(ScanWalk(s, root, walk, FileTypes(filetypes), tags), root, finished)
  }

  /** Two steps that each keep and count what they add make one such step. */
  lemma Chain(s: ScannerState, s1: ScannerState, r: ScannerState)
    requires Kept(s, s1) && Counted(s, s1) && TracksCounted(s, s1)
    requires Kept(s1, r) && Counted(s1, r) && TracksCounted(s1, r)
    ensures Kept(s, r) && Counted(s, r) && TracksCounted(s, r)
  {
  }

  lemma ScanEntryPreserves(s: ScannerState, dir: string, fid: Id, f: FileEntry, valid: seq<string>, tags: map<string, Tags>)
    requires Consistent(s) && fid in s.db.folders
    ensures var r := ScanEntry(s, dir, fid, f, valid, tags);
            Consistent(r) && Kept(s, r) && Counted(s, r) && TracksCounted(s, r)
  {
    if Accepted(f.name, valid) {
      ScanOneFilePreserves(s, fid, Join(dir, f.name), f.mtime, tags);
    }
  }

  /** Scanning a folder's files keeps the catalog consistent, loses
      nothing, and counts every record it adds. */
  lemma {:induction false} ScanFilesPreserves(s: ScannerState, dir: string, fid: Id, files: seq<FileEntry>, valid: seq<string>, tags: map<string, Tags>)
    requires Consistent(s) && fid in s.db.folders
    ensures var r := ScanFiles(s, dir, fid, files, valid, tags);
            Consistent(r) && Kept(s, r) && Counted(s, r) && TracksCounted(s, r)
    decreases |files|
  {
    if files != [] {
      var s1 := ScanFiles(s, dir, fid, files[..|files| - 1], valid, tags);
      ScanFilesPreserves(s, dir, fid, files[..|files| - 1], valid, tags);
      ScanEntryPreserves(s1, dir, fid, files[|files| - 1], valid, tags);
      Chain(s, s1, ScanEntry(s1, dir, fid, files[|files| - 1], valid, tags));
    }
  }

  lemma VisitedPreserves(s: ScannerState, fid: Id, at: real)
    requires Consistent(s) && fid in s.db.folders
    ensures var r := Visited(s, fid, at);
            Consistent(r) && Kept(s, r) && Counted(s, r) && TracksCounted(s, r)
  {
    PutFolderValid(s.db, fid, s.db.folders[fid].(lastScan := Some(at)));
  }

  lemma AddedConsistent(s: ScannerState, root: Id, d: DirEntry)
    requires Consistent(s)
    ensures Consistent(Added(s, root, d)) && s.db.nextId in Added(s, root, d).db.folders
  {
    WithFolderValid(s.db, Folder(d.path, Some(root), d.ctime, None));
  }

  lemma AddedPreserves(s: ScannerState, root: Id, d: DirEntry)
    requires Consistent(s) && d.path !in s.folderIndex
    ensures var r := Added(s, root, d);
            Consistent(r) && Kept(s, r) && Counted(s, r) && TracksCounted(s, r)
            && s.db.nextId in r.db.folders
  {
    AddedConsistent(s, root, d);
  }

  /** One directory of the walk keeps the catalog consistent, loses
      nothing, and counts every record it adds. */
  lemma ScanDirPreserves(s: ScannerState, root: Id, d: DirEntry, valid: seq<string>, tags: map<string, Tags>)
    requires Consistent(s)
    ensures var r := ScanDir(s, root, d, valid, tags);
            Consistent(r) && Kept(s, r) && Counted(s, r) && TracksCounted(s, r)
  {
    if d.path in s.folderIndex {
      var fid := s.folderIndex[d.path];
      if !ScannedSince(d.mtime, s.db.folders[fid].lastScan) {
        var s1 := Visited(s, fid, d.visitedAt);
        VisitedPreserves(s, fid, d.visitedAt);
        ScanFilesPreserves(s1, d.path, fid, d.files, valid, tags);
        Chain(s, s1, ScanFiles(s1, d.path, fid, d.files, valid, tags));
      }
    } else {
      var s1 := Added(s, root, d);
      AddedPreserves(s, root, d);
      ScanFilesPreserves(s1, d.path, s.db.nextId, d.files, valid, tags);
      Chain(s, s1, ScanFiles(s1, d.path, s.db.nextId, d.files, valid, tags));
    }
  }

  lemma {:induction false} ScanWalkPreserves(s: ScannerState, root: Id, walk: seq<DirEntry>, valid: seq<string>, tags: map<string, Tags>)
    requires Consistent(s)
    ensures var r := ScanWalk(s, root, walk, valid, tags);
            Consistent(r) && Kept(s, r) && Counted(s, r) && TracksCounted(s, r)
    decreases |walk|
  {
    if walk != [] {
      var s1 := ScanWalk(s, root, walk[..|walk| - 1], valid, tags);
      ScanWalkPreserves(s, root, walk[..|walk| - 1], valid, tags);
      ScanDirPreserves(s1, root, walk[|walk| - 1], valid, tags);
      Chain(s, s1, ScanDir(s1, root, walk[|walk| - 1], valid, tags));
    }
  }

  /** A whole scan keeps the catalog consistent and loses nothing; every
      added artist, album and track is one more record; the root folder
      carries the scan's finishing time. */
  lemma ScanPreserves(s: ScannerState, root: Id, walk: seq<DirEntry>, filetypes: string, tags: map<string, Tags>, finished: real)
    requires Consistent(s) && root in s.db.folders
    ensures var r := Scan(s, root, walk, filetypes, tags, finished);
            && Consistent(r) && Kept(s, r) && Counted(s, r) && TracksCounted(s, r)
            && r.db.folders[root].lastScan == Some(finished)
  {
    var s1 := ScanWalk(s, root, walk, FileTypes(filetypes), tags);
    ScanWalkPreserves(s, root, walk, FileTypes(filetypes), tags);
    VisitedPreserves(s1, root, finished);
    Chain(s, s1, Visited(s1, root, finished));
  }

  // ---------------------------------------------------------------------
  // What a scan does with each file and folder

  /** The scan changes nothing for a file unless its tags are read: a
      known, stored track whose file is newer than its record, or a file
      not yet in the track table.  A stored track whose file cannot be read
      is returned as it was, to be filed again under its folder. */
  lemma ScanFileUnchanged(s: ScannerState, path: string, mtime: real, tags: Option<Tags>)
    requires Wf(s)
    requires !(tags.Some? && (path !in s.trackIndex ||
                              (s.trackIndex[path] in s.db.tracks && s.db.tracks[s.trackIndex[path]].lastModification < mtime.Floor)))
    ensures ScanFile(s, path, mtime, tags).1 == s
    ensures path in s.trackIndex && s.trackIndex[path] in s.db.tracks && tags.None? ==>
              ScanFile(s, path, mtime, tags).0 == Scanned(Some(s.trackIndex[path]), s.db.tracks[s.trackIndex[path]])
  {
  }

  /** A file is passed over exactly when its path names a track that is no
      longer stored, or it is a new file whose tags cannot be read. */
  lemma SkippedExactly(s: ScannerState, path: string, mtime: real, tags: Option<Tags>)
    requires Wf(s)
    ensures ScanFile(s, path, mtime, tags).0.Skipped? <==>
              (path in s.trackIndex && s.trackIndex[path] !in s.db.tracks) || (path !in s.trackIndex && tags.None?)
  {
  }

  /** A known file not modified since its record was written is returned
      as stored, whatever its tags now say. */
  lemma UnmodifiedFileAsStored(s: ScannerState, path: string, mtime: real, tags: Option<Tags>)
    requires Wf(s) && path in s.trackIndex && s.trackIndex[path] in s.db.tracks
    requires mtime.Floor <= s.db.tracks[s.trackIndex[path]].lastModification
    ensures var (res, r) := ScanFile(s, path, mtime, tags);
            res == Scanned(Some(s.trackIndex[path]), s.db.tracks[s.trackIndex[path]]) && r == s
  {
  }

  /** Filling a track from tags sets each field from its tag and the album
      to the one of that name under the album artist. */
  lemma ApplyTagsFields(s: ScannerState, path: string, tr: Track, cur: int, t: Tags)
    requires Consistent(s)
    ensures var (r, tr') := ApplyTags(s, path, tr, cur, t);
            && tr'.path == tr.path && tr'.folder == tr.folder
            && tr'.lastModification == cur && tr'.created == cur
            && tr'.disc == t.disc && tr'.number == t.track && tr'.title == t.title
            && tr'.year == t.year && tr'.genre == t.genre && tr'.artist == t.artist
            && tr'.bitrate == t.bitrate / 1000 && tr'.duration == t.length
            && Key(AlbumArtist(path, t)) in r.artistIndex
            && tr'.album in r.db.albums
            && r.db.albums[tr'.album].name == t.album
            && r.db.albums[tr'.album].artist == r.artistIndex[Key(AlbumArtist(path, t))]
  {
    FindAlbumFinds(s, AlbumArtist(path, t), t.album, t.year);
  }

  /** When a file's tags are read, its track (the stored one, or a new one
      counted as added) is filled from them as `ApplyTagsFields` states. */
  lemma TagsApplied(s: ScannerState, path: string, mtime: real, t: Tags)
    requires Wf(s)
    requires path !in s.trackIndex ||
             (s.trackIndex[path] in s.db.tracks && s.db.tracks[s.trackIndex[path]].lastModification < mtime.Floor)
    ensures var (res, r) := ScanFile(s, path, mtime, Some(t));
            && res.Scanned?
            && (res.known.Some? <==> path in s.trackIndex)
            && ApplyTags(if path in s.trackIndex then s else CountTrack(s), path,
                         if path in s.trackIndex then s.db.tracks[s.trackIndex[path]] else NewTrack(path),
                         mtime.Floor, t) == (r, res.track)
  {
  }

  /** With no album-artist tag, a file laid out as `.../artist/album/song`
      is filed under the artist folder's name. */
  lemma AlbumArtistFallback(d: string, artist: string, album: string, file: string, t: Tags)
    requires NoSlash(artist) && NoSlash(album) && NoSlash(file)
    requires artist != [] && album != []
    requires t.albumArtist == ""
    ensures AlbumArtist(d + "/" + artist + "/" + album + "/" + file, t) == artist
  {
    GrandparentOfNested(d, artist, album, file);
  }

  /** The configured types are compared lower-cased. */
  lemma FileTypesLowerCase(setting: string)
    ensures forall i :: 0 <= i < |FileTypes(setting)| ==> Lower(FileTypes(setting)[i]) == FileTypes(setting)[i]
  {
    var parts := Split(setting, ",");
    forall i | 0 <= i < |parts| ensures Lower(Lower(parts[i])) == Lower(parts[i]) {
      LowerIdempotent(parts[i]);
    }
  }

  /** A file's type is matched without regard to case: `SONG.MP3` is
      accepted exactly when `song.mp3` is. */
  lemma AcceptedIgnoresCase(name: string, valid: seq<string>)
    ensures Accepted(name, valid) <==> Accepted(Lower(name), valid)
  {
    LowerIdempotent(name);
  }

  /** An empty entry in the setting (an empty setting, or a stray comma)
      accepts every file. */
  lemma EmptyFileTypeAcceptsAll(setting: string, name: string, k: int)
    requires 0 <= k < |Split(setting, ",")| && Split(setting, ",")[k] == ""
    ensures Accepted(name, FileTypes(setting))
  {
    assert EndsWith(Lower(name), FileTypes(setting)[k]);
  }

  /** Each directory of the walk: a known folder not modified since its
      last scan is left as it is; a known folder otherwise gets the time of
      its visit as its scan time; an unknown one is stored under the next
      id, with the scan's root as parent and its creation time. */
  lemma ScanDirFolder(s: ScannerState, root: Id, d: DirEntry, valid: seq<string>, tags: map<string, Tags>)
    requires Wf(s)
    ensures var r := ScanDir(s, root, d, valid, tags);
            && (d.path in s.folderIndex && ScannedSince(d.mtime, s.db.folders[s.folderIndex[d.path]].lastScan) ==> r == s)
            && (d.path in s.folderIndex && !ScannedSince(d.mtime, s.db.folders[s.folderIndex[d.path]].lastScan) ==>
                  r.folderIndex[d.path] == s.folderIndex[d.path]
                  && r.db.folders[s.folderIndex[d.path]] == s.db.folders[s.folderIndex[d.path]].(lastScan := Some(d.visitedAt)))
            && (d.path !in s.folderIndex ==>
                  r.folderIndex[d.path] == s.db.nextId
                  && r.db.folders[s.db.nextId] == Folder(d.path, Some(root), d.ctime, None))
  {
  }
}
