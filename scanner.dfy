/**
 * The `Scanner` class: the lookup tables it loads when it is made, its six
 * counters, and the catalog it writes through the database session, with
 * each method performing its steps in place.  Every method that changes
 * the scanner is proved to end in the state the matching function of
 * `Reconcile` or `Pruning` gives; the properties of the scan are proved
 * there.
 */
module Scanning {
  import opened Wrappers
  import opened Strings
  import opened Paths
  import opened Catalog
  import opened Reconcile
  import opened Rescan
  import opened Pruning

  class Scanner {
    /** `__tracks`: track path to track id. */
    var tracks: map<string, Id>
    /** `__artists`: lower-cased artist name to artist. */
    var artists: map<string, Id>
    /** `__folders`: folder path to folder. */
    var folders: map<string, Id>
    /** `__playlists`: the playlists, loaded once. */
    var playlists: seq<Id>
    var addedArtists: nat
    var addedAlbums: nat
    var addedTracks: nat
    var deletedArtists: nat
    var deletedAlbums: nat
    var deletedTracks: nat
    /** What the database session holds. */
    var db: Catalog

    function State(): ScannerState
      reads this
    {
      ScannerState(tracks, artists, folders, playlists,
                   Counters(addedArtists, addedAlbums, addedTracks, deletedArtists, deletedAlbums, deletedTracks),
                   db)
    }

    /** `{x.path: x.id for x in tracks}`: every stored track under its
        path; of two tracks with one path, the one met last. */
    static method LoadTracks(store: Catalog) returns (byPath: map<string, Id>)
      ensures forall p :: p in byPath ==> byPath[p] in store.tracks && store.tracks[byPath[p]].path == p
      ensures forall id :: id in store.tracks ==> store.tracks[id].path in byPath
    {
      byPath := map[];
      var rest := store.tracks.Keys;
      while rest != {}
        invariant rest <= store.tracks.Keys
        invariant forall p :: p in byPath ==> byPath[p] in store.tracks && store.tracks[byPath[p]].path == p
        invariant forall id :: id in store.tracks && id !in rest ==> store.tracks[id].path in byPath
        decreases |rest|
      {
        var id :| id in rest;
        byPath := byPath[store.tracks[id].path := id];
        rest := rest - {id};
      }
    }

    /** `{x.name.lower(): x for x in artists}` */
    static method LoadArtists(store: Catalog) returns (byName: map<string, Id>)
      ensures forall k :: k in byName ==> byName[k] in store.artists && Lower(store.artists[byName[k]].name) == k
      ensures forall id :: id in store.artists ==> Lower(store.artists[id].name) in byName
    {
      byName := map[];
      var rest := store.artists.Keys;
      while rest != {}
        invariant rest <= store.artists.Keys
        invariant forall k :: k in byName ==> byName[k] in store.artists && Lower(store.artists[byName[k]].name) == k
        invariant forall id :: id in store.artists && id !in rest ==> Lower(store.artists[id].name) in byName
        decreases |rest|
      {
        var id :| id in rest;
        byName := byName[Lower(store.artists[id].name) := id];
        rest := rest - {id};
      }
    }

    /** `{x.path: x for x in folders}` */
    static method LoadFolders(store: Catalog) returns (byPath: map<string, Id>)
      ensures forall p :: p in byPath ==> byPath[p] in store.folders && store.folders[byPath[p]].path == p
      ensures forall id :: id in store.folders ==> store.folders[id].path in byPath
    {
      byPath := map[];
      var rest := store.folders.Keys;
      while rest != {}
        invariant rest <= store.folders.Keys
        invariant forall p :: p in byPath ==> byPath[p] in store.folders && store.folders[byPath[p]].path == p
        invariant forall id :: id in store.folders && id !in rest ==> store.folders[id].path in byPath
        decreases |rest|
      {
        var id :| id in rest;
        byPath := byPath[store.folders[id].path := id];
        rest := rest - {id};
      }
    }

    /** `session.query(Playlist).all()`: each playlist once. */
    static method LoadPlaylists(store: Catalog) returns (loaded: seq<Id>)
      ensures NoDup(loaded)
      ensures forall p :: p in loaded <==> p in store.playlists
    {
      loaded := [];
      var rest := store.playlists.Keys;
      while rest != {}
        invariant rest <= store.playlists.Keys
        invariant NoDup(loaded)
        invariant forall p :: p in loaded <==> p in store.playlists && p !in rest
        decreases |rest|
      {
        var id :| id in rest;
        loaded := loaded + [id];
        rest := rest - {id};
      }
    }

    /** `__init__`: the lookup tables and playlists loaded from the store,
        and the counters at zero. */
    constructor (store: Catalog)
      requires Valid(store)
      ensures db == store && Consistent(State()) && Loaded(State()) && NoDup(playlists)
      ensures forall id :: id in store.tracks ==> store.tracks[id].path in tracks
      ensures forall id :: id in store.artists ==> Lower(store.artists[id].name) in artists
      ensures forall id :: id in store.folders ==> store.folders[id].path in folders
      ensures forall p :: p in store.playlists <==> p in playlists
      ensures State().counters == Counters(0, 0, 0, 0, 0, 0)
    {
      var byPath := LoadTracks(store);
      var byName := LoadArtists(store);
      var byFolder := LoadFolders(store);
      var loaded := LoadPlaylists(store);
      tracks, artists, folders, playlists := byPath, byName, byFolder, loaded;
      addedArtists, addedAlbums, addedTracks := 0, 0, 0;
      deletedArtists, deletedAlbums, deletedTracks := 0, 0, 0;
      db := store;
      new;
      assert IndexSound(State());
    }

    /** The artist part of `__find_album`. */
    method FindArtist(artist: string) returns (ar: Id)
      requires Wf(State())
      modifies this
      ensures State() == Reconcile.FindArtist(old(State()), artist)
      ensures ar == artists[Key(artist)]
    {
      var name := RStrip(artist);
      if Lower(name) in artists {
        ar := artists[Lower(name)];
      } else {
        ar := db.nextId;
        db := WithArtist(db, name);
        artists := artists[Lower(name) := ar];
        addedArtists := addedArtists + 1;
      }
    }

    /** `__find_album`: the artist by its lower-cased, right-stripped name,
        created if missing; then the album by exact name among the artist's
        albums, created with the given year if missing. */
    method FindAlbum(artist: string, album: string, year: int) returns (id: Id)
      requires Wf(State())
      modifies this
      ensures (State(), id) == Reconcile.FindAlbum(old(State()), artist, album, year)
    {
      var ar := FindArtist(artist);
      ghost var found := State();
      var list := db.artists[ar].albums;
      var byName: map<string, Id> := map[];
      for i := 0 to |list|
        invariant byName == NameMap(db.albums, list[..i])
      {
        assert list[..i + 1][..i] == list[..i];
        if list[i] in db.albums {
          byName := byName[db.albums[list[i]].name := list[i]];
        }
      }
      assert list[..|list|] == list;
      if album in byName {
        id := byName[album];
      } else {
        id := db.nextId;
        db := WithAlbum(db, ar, album, year);
        addedAlbums := addedAlbums + 1;
        assert (State(), id) == AddAlbum(found, ar, album, year);
      }
    }

    /** `__scan_file`: the file's track, read afresh from its tags when it
        is new or modified; `Skipped` where the source returns `False` or
        fails on a track id that names no stored track. */
    method ScanFile(path: string, mtime: real, tags: Option<Tags>) returns (res: FileResult)
      requires Wf(State())
      modifies this
      ensures (res, State()) == Reconcile.ScanFile(old(State()), path, mtime, tags)
    {
      var cur := mtime.Floor;
      var tr: Track;
      var known: Option<Id>;
      if path in tracks {
        var id := tracks[path];
        if id !in db.tracks {
          return Skipped;
        }
        tr := db.tracks[id];
        if cur <= tr.lastModification || tags.None? {
          return Scanned(Some(id), tr);
        }
        known := Some(id);
      } else {
        if tags.None? {
          return Skipped;
        }
        tr := NewTrack(path);
        addedTracks := addedTracks + 1;
        assert State() == CountTrack(old(State()));
        known := None;
      }
      tr := ApplyTags(path, tr, cur, tags.value);
      res := Scanned(known, tr);
    }

    /** The second half of `__scan_file`: the track's fields from the tags,
        the album artist falling back to the folder two levels up, and the
        album found or created. */
    method ApplyTags(path: string, tr: Track, cur: int, t: Tags) returns (filled: Track)
      requires Wf(State())
      modifies this
      ensures (State(), filled) == Reconcile.ApplyTags(old(State()), path, tr, cur, t)
    {
      var albumArtist := t.albumArtist;
      if albumArtist == "" {
        albumArtist := Basename(Dirname(Dirname(path)));
      }
      var al := FindAlbum(albumArtist, t.album, t.year);
      filled := tr.(lastModification := cur, disc := t.disc, number := t.track, title := t.title,
                    year := t.year, genre := t.genre, artist := t.artist, bitrate := t.bitrate / 1000,
                    duration := t.length, created := cur, album := al);
    }

    /** The files of one folder of the walk: each file of an accepted type
        is scanned, and a scanned track is stored under the folder. */
    method ScanFolderFiles(dir: string, fid: Id, files: seq<FileEntry>, valid: seq<string>, tags: map<string, Tags>)
      requires Wf(State())
      modifies this
      ensures State() == Reconcile.ScanFiles(old(State()), dir, fid, files, valid, tags)
    {
      for j := 0 to |files|
        invariant State() == Reconcile.ScanFiles(old(State()), dir, fid, files[..j], valid, tags)
      {
        assert files[..j + 1][..j] == files[..j];
        var f := files[j];
        if Accepted(f.name, valid) {
          var path := Join(dir, f.name);
          var res := ScanFile(path, f.mtime, TagsOf(tags, path));
          ghost var scanned := State();
          if res.Scanned? {
            var stored := res.track.(folder := Some(fid));
            if res.known.Some? {
              db := db.(tracks := db.tracks[res.known.value := stored]);
            } else {
              db := WithTrack(db, stored);
            }
          }
          assert State() == Store(scanned, res, fid);
        }
      }
      assert files[..|files|] == files;
    }

    /** One directory of the walk in `scan`: a known folder not modified
        since its last scan is passed over; a known folder otherwise gets
        the time of the visit as its scan time; an unknown one is added
        under the root folder; then the directory's files are scanned. */
    method ScanDirectory(root: Id, d: DirEntry, valid: seq<string>, tags: map<string, Tags>)
      requires Wf(State())
      modifies this
      ensures State() == ScanDir(old(State()), root, d, valid, tags)
    {
      var fid: Id;
      if d.path in folders {
        fid := folders[d.path];
        var folder := db.folders[fid];
        if ScannedSince(d.mtime, folder.lastScan) {
          return;
        }
        db := db.(folders := db.folders[fid := folder.(lastScan := Some(d.visitedAt))]);
      } else {
        fid := db.nextId;
        db := WithFolder(db, Folder(d.path, Some(root), d.ctime, None));
        folders := folders[d.path := fid];
      }
      ScanFolderFiles(d.path, fid, d.files, valid, tags);
    }

    /** `scan`: the bottom-up walk under the root folder, then the root's
        scan time. */
    method Scan(root: Id, walk: seq<DirEntry>, filetypes: string, tags: map<string, Tags>, finished: real)
      requires Wf(State()) && root in db.folders
      modifies this
      ensures State() == Reconcile.Scan(old(State()), root, walk, filetypes, tags, finished)
    {
      var valid := FileTypes(filetypes);
      for i := 0 to |walk|
        invariant State() == ScanWalk(old(State()), root, walk[..i], valid, tags)
      {
        assert walk[..i + 1][..i] == walk[..i];
        ScanDirectory(root, walk[i], valid, tags);
      }
      assert walk[..|walk|] == walk;
      ghost var walked := State();
      db := db.(folders := db.folders[root := db.folders[root].(lastScan := Some(finished))]);
      assert State() == Visited(walked, root, finished);
    }
  
    /** The first stage of `prune`: the track of every path in the track
        table that is no longer a file (not in `present`) is deleted, and
        the deletions committed.  A path whose id names no stored track
        makes `session.delete(None)` fail, and nothing is committed. */
    method DeleteMissingTracks(present: set<string>) returns (ok: bool)
      modifies this
      ensures ok <==> !HasStale(old(State()), present)
      ensures ok ==> State() == old(State()).(db := DropTracks(old(db), Doomed(old(State()), present)))
      ensures !ok ==> State() == old(State())
    {
      var kept;
      ok, kept := KeptTracks(tracks, db, present);
      if !ok {
        return false;
      }
      ghost var s0 := State();
      db := db.(tracks := kept);
      assert State() == s0.(db := DropTracks(s0.db, Doomed(s0, present)));
      return true;
    }

    /** The loop of the first stage over the track table: the tracks left
        once every path missing from `present` is deleted, or `false` at the
        first such path whose id names no stored track. */
    static method KeptTracks(index: map<string, Id>, db: Catalog, present: set<string>)
      returns (ok: bool, kept: map<Id, Track>)
      ensures ok <==> !HasStaleIn(index, db, present)
      ensures ok ==> kept == DropTracks(db, DoomedIn(index, index.Keys, present)).tracks
    {
      kept := db.tracks;
      var done: set<string> := {};
      DropNoTracks(db);
      DoomedInNone(index, present);
      while done != index.Keys
        invariant done <= index.Keys
        invariant kept == DropTracks(db, DoomedIn(index, done, present)).tracks
        invariant forall p :: p in done && p !in present ==> index[p] in db.tracks
        decreases |index.Keys - done|
      {
        var p :| p in index.Keys - done;
        DoomedInStep(index, done, present, p);
        if p !in present {
          var id := index[p];
          if id !in db.tracks {
            return false, kept;
          }
          DropTracksStep(db, DoomedIn(index, done, present), id);
          kept := kept - {id};
        }
        done := done + {p};
      }
      return true, kept;
    }

    /** The second stage of `prune`: every album without a track is taken
        off its artist's list and deleted, and counted. */
    method DeleteEmptyAlbums()
      requires Valid(db)
      modifies this
      ensures State() == old(State()).(db := WithoutEmptyAlbums(old(db)),
                                       counters := old(State()).counters.(deletedAlbums := old(deletedAlbums) + |EmptyAlbums(old(db))|))
    {
      ValidOwnedOnce(db);
      var cat, count := DeleteAlbums(db, EmptyAlbums(db));
      ghost var s0 := State();
      db := cat;
      deletedAlbums := deletedAlbums + count;
      assert State() == s0.(db := cat, counters := s0.counters.(deletedAlbums := s0.counters.deletedAlbums + count));
    }

    /** The loop of the second stage: each album of `empty`, in any order,
        taken off its artist's list and deleted. */
    static method DeleteAlbums(db: Catalog, empty: set<Id>) returns (cat: Catalog, count: nat)
      requires OwnedOnce(db) && empty <= db.albums.Keys
      ensures cat == DropAlbums(db, empty) && count == |empty|
    {
      cat := db;
      count := 0;
      var todo := empty;
      ghost var removed: set<Id> := {};
      DropNoAlbums(db);
      while todo != {}
        invariant removed + todo == empty && removed !! todo
        invariant cat == DropAlbums(db, removed)
        invariant count == |removed|
        decreases |todo|
      {
        var al :| al in todo;
        cat := DeleteOneAlbum(db, removed, cat, al);
        count := count + 1;
        todo := todo - {al};
        removed := removed + {al};
      }
      assert removed == empty;
    }

    /** One step of that loop: `album.artist.albums.remove(album)` and
        `session.delete(album)`. */
    static method DeleteOneAlbum(ghost db: Catalog, ghost removed: set<Id>, cat: Catalog, al: Id) returns (r: Catalog)
      requires OwnedOnce(db) && al in db.albums && al !in removed
      requires cat == DropAlbums(db, removed)
      ensures r == DropAlbums(db, removed + {al})
    {
      assert SoleOwner(db, al);
      DropAlbumsStep(db, removed, al);
      r := DeleteAlbum(cat, al);
    }

    /** The third stage of `prune`: every artist without an album is
        deleted, and counted. */
    method DeleteLoneArtists()
      modifies this
      ensures State() == old(State()).(db := WithoutLoneArtists(old(db)),
                                       counters := old(State()).counters.(deletedArtists := old(deletedArtists) + |LoneArtists(old(db))|))
    {
      var cat := db;
      var count := 0;
      var lone := LoneArtists(db);
      var todo := lone;
      ghost var removed: set<Id> := {};
      DropNoArtists(db);
      while todo != {}
        invariant removed + todo == lone && removed !! todo
        invariant cat == DropArtists(db, removed)
        invariant count == |removed|
        modifies {}
        decreases |todo|
      {
        var ar :| ar in todo;
        DropArtistsStep(db, removed, ar);
        cat := DeleteArtist(cat, ar);
        count := count + 1;
        todo := todo - {ar};
        removed := removed + {ar};
      }
      assert removed == lone;
      ghost var s0 := State();
      db := cat;
      deletedArtists := deletedArtists + count;
      assert State() == s0.(db := cat, counters := s0.counters.(deletedArtists := s0.counters.deletedArtists + count));
    }

    /** `prune`: the three stages, each committed; the first failing stops
        the prune. */
    method Prune(present: set<string>) returns (r: Result<(), PruneError>)
      requires Valid(db)
      modifies this
      ensures r.Failure? <==> Pruning.Prune(old(State()), present).Failure?
      ensures r.Failure? ==> State() == old(State())
      ensures r.Success? ==> State() == Pruning.Prune(old(State()), present).value
    {
      ghost var s0 := State();
      var ok := DeleteMissingTracks(present);
      if !ok {
        return Failure(StaleTrack);
      }
      DeleteEmpties(s0, present);
      return Success(());
    }

    /** The second and third stages of `prune`, after the first succeeded. */
    method DeleteEmpties(ghost s0: ScannerState, ghost present: set<string>)
      requires !HasStale(s0, present) && Valid(s0.db)
      requires State() == s0.(db := DropTracks(s0.db, Doomed(s0, present)))
      modifies this
      ensures State() == Pruning.Prune(s0, present).value
    {
      ghost var db1 := DropTracks(s0.db, Doomed(s0, present));
      DropTracksValid(s0.db, Doomed(s0, present));
      DeleteEmptyAlbums();
      assert State() == s0.(db := WithoutEmptyAlbums(db1),
                            counters := s0.counters.(deletedAlbums := s0.counters.deletedAlbums + |EmptyAlbums(db1)|));
      ghost var s1 := State();
      DeleteLoneArtists();
      ghost var db2 := WithoutEmptyAlbums(db1);
      assert State() == s1.(db := WithoutLoneArtists(db2),
                            counters := s1.counters.(deletedArtists := s1.counters.deletedArtists + |LoneArtists(db2)|));
    }

    /** `__remove_track`: the track comes off every loaded playlist that
        holds it, then it is deleted and counted. */
    method RemoveTrack(id: Id)
      requires id in db.tracks
      modifies this
      ensures State() == Pruning.RemoveTrack(old(State()), id)
    {
      var lists := db.playlists;
      for i := 0 to |playlists|
        invariant lists == DropFromPlaylists(db.playlists, playlists[..i], id)
      {
        assert playlists[..i + 1][..i] == playlists[..i];
        var p := playlists[i];
        if p in lists {
          lists := lists[p := RemoveFirst(lists[p], id)];
        }
      }
      assert playlists[..|playlists|] == playlists;
      ghost var s0 := State();
      db := DeleteTrack(db, id).(playlists := lists);
      deletedTracks := deletedTracks + 1;
      assert State() == Pruning.RemoveTrack(s0, id);
    }

    /** `stats` */
    method Stats() returns (added: (nat, nat, nat), deleted: (nat, nat, nat))
      ensures (added, deleted) == Pruning.Stats(State())
    {
      added := (addedArtists, addedAlbums, addedTracks);
      deleted := (deletedArtists, deletedAlbums, deletedTracks);
    }
  }
}
