/**
 * `Scanner.prune` and `Scanner.__remove_track`: deleting the tracks whose
 * files are gone, then the albums left without a track, then the artists
 * left without an album; and removing one track from the catalog and from
 * every loaded playlist.
 */
module Pruning {
  import opened Wrappers
  import opened Catalog
  import opened Reconcile

  /** `session.delete(None)`: a track-table path whose id names no stored
      track cannot be deleted, and the prune stops there. */
  datatype PruneError = StaleTrack

  /** The ids of the paths among `keys` that are not in `present`. */
  function DoomedIn(index: map<string, Id>, keys: set<string>, present: set<string>): set<Id>
    requires keys <= index.Keys
  {
    set p | p in keys && p !in present :: index[p]
  }

  /** The ids of the track-table paths that are not files any more. */
  function Doomed(s: ScannerState, present: set<string>): (r: set<Id>)
    ensures forall id :: id in r <==> exists p :: p in s.trackIndex && p !in present && s.trackIndex[p] == id
  {
    DoomedIn(s.trackIndex, s.trackIndex.Keys, present)
  }

  lemma DoomedInStep(index: map<string, Id>, keys: set<string>, present: set<string>, p: string)
    requires keys <= index.Keys && p in index
    ensures DoomedIn(index, keys + {p}, present) ==
              DoomedIn(index, keys, present) + (if p in present then {} else {index[p]})
  {
  }

  lemma DoomedInNone(index: map<string, Id>, present: set<string>)
    ensures DoomedIn(index, {}, present) == {}
  {
  }

  /** Some path to delete has an id that names no stored track. */
  predicate HasStaleIn(index: map<string, Id>, db: Catalog, present: set<string>) {
    exists p :: p in index && p !in present && index[p] !in db.tracks
  }

  predicate HasStale(s: ScannerState, present: set<string>) {
    HasStaleIn(s.trackIndex, s.db, present)
  }

  function DropTracks(db: Catalog, gone: set<Id>): (r: Catalog)
    ensures r.tracks.Keys == db.tracks.Keys - gone
  {
    db.(tracks := map t | t in db.tracks && t !in gone :: db.tracks[t])
  }

  predicate HasTrack(db: Catalog, al: Id) {
    exists t :: t in db.tracks && db.tracks[t].album == al
  }

  /** `Album.id not in (select distinct album_id from track)` */
  function EmptyAlbums(db: Catalog): (r: set<Id>)
    ensures r <= db.albums.Keys
    ensures forall al :: al in r <==> al in db.albums && !HasTrack(db, al)
  {
    set al | al in db.albums && !HasTrack(db, al)
  }

  /** The albums in `gone` are deleted and taken off their artists' lists. */
  function DropAlbums(db: Catalog, gone: set<Id>): (r: Catalog)
    ensures r.albums.Keys == db.albums.Keys - gone && r.artists.Keys == db.artists.Keys
  {
    db.(albums := map al | al in db.albums && al !in gone :: db.albums[al],
        artists := map ar | ar in db.artists :: db.artists[ar].(albums := Without(db.artists[ar].albums, gone)))
  }

  predicate HasAlbum(db: Catalog, ar: Id) {
    exists al :: al in db.albums && db.albums[al].artist == ar
  }

  /** `Artist.id not in (select artist_id from album)` */
  function LoneArtists(db: Catalog): (r: set<Id>)
    ensures r <= db.artists.Keys
    ensures forall ar :: ar in r <==> ar in db.artists && !HasAlbum(db, ar)
  {
    set ar | ar in db.artists && !HasAlbum(db, ar)
  }

  function DropArtists(db: Catalog, gone: set<Id>): (r: Catalog)
    ensures r.artists.Keys == db.artists.Keys - gone
  {
    db.(artists := map ar | ar in db.artists && ar !in gone :: db.artists[ar])
  }

  /** The second step: every album without a track is deleted. */
  function WithoutEmptyAlbums(db: Catalog): Catalog {
    DropAlbums(db, EmptyAlbums(db))
  }

  /** The third step: every artist without an album is deleted. */
  function WithoutLoneArtists(db: Catalog): Catalog {
    DropArtists(db, LoneArtists(db))
  }

  /** `prune`: the tracks whose paths are not in `present` (the paths that
      are still files) are deleted, then every album without a track, then
      every artist without an album; each deleted album and artist is
      counted.  The track table, the artist table and the playlists are
      left as they were. */
  function Prune(s: ScannerState, present: set<string>): (r: Result<ScannerState, PruneError>)
  {
    if HasStale(s, present) then Failure(StaleTrack)
    else
      var db1 := DropTracks(s.db, Doomed(s, present));
      var db2 := WithoutEmptyAlbums(db1);
      Success(s.(db := WithoutLoneArtists(db2),
                 counters := s.counters.(deletedAlbums := s.counters.deletedAlbums + |EmptyAlbums(db1)|,
                                         deletedArtists := s.counters.deletedArtists + |LoneArtists(db2)|)))
  }

  /** The prune fails exactly when a path to delete names no stored track;
      this happens on a second prune by the same scanner, whose track table
      still lists the tracks the first one deleted. */
  lemma PruneFailsExactly(s: ScannerState, present: set<string>)
    ensures Prune(s, present).Failure? <==>
              exists p :: p in s.trackIndex && p !in present && s.trackIndex[p] !in s.db.tracks
  {
  }

  /** Exactly the tracks of missing files are deleted; the others are left
      as they were. */
  lemma PruneTracks(s: ScannerState, present: set<string>)
    requires Prune(s, present).Success?
    ensures var r := Prune(s, present).value;
            && (forall t :: t in r.db.tracks <==>
                  t in s.db.tracks && !(exists p :: p in s.trackIndex && p !in present && s.trackIndex[p] == t))
            && (forall t :: t in r.db.tracks ==> r.db.tracks[t] == s.db.tracks[t])
  {
  }

  /** An album survives exactly when a track of a file still present
      belongs to it; an artist survives exactly when one of its albums
      survives. */
  lemma PruneKeepsExactly(s: ScannerState, present: set<string>)
    requires Prune(s, present).Success?
    ensures var r := Prune(s, present).value;
            && (forall al :: al in r.db.albums <==> al in s.db.albums && HasTrack(r.db, al))
            && (forall ar :: ar in r.db.artists <==> ar in s.db.artists && HasAlbum(r.db, ar))
  {
  }

  lemma DropTracksValid(db: Catalog, gone: set<Id>)
    requires Valid(db)
    ensures Valid(DropTracks(db, gone))
  {
  }

  lemma DropAlbumsNoDup(db: Catalog, gone: set<Id>)
    requires forall ar :: ar in db.artists ==> NoDup(db.artists[ar].albums)
    ensures var r := DropAlbums(db, gone);
            forall ar :: ar in r.artists ==> NoDup(r.artists[ar].albums)
  {
    var r := DropAlbums(db, gone);
    forall ar | ar in r.artists
      ensures NoDup(r.artists[ar].albums)
    {
      WithoutKeepsNoDup(db.artists[ar].albums, gone);
    }
  }

  lemma DropAlbumsValid(db: Catalog, gone: set<Id>)
    requires Valid(db)
    requires forall t :: t in db.tracks ==> db.tracks[t].album !in gone
    ensures Valid(DropAlbums(db, gone))
  {
    var r := DropAlbums(db, gone);
    DropAlbumsNoDup(db, gone);
    forall ar, i | ar in r.artists && 0 <= i < |r.artists[ar].albums|
      ensures r.artists[ar].albums[i] in r.albums && r.albums[r.artists[ar].albums[i]].artist == ar
    {
      var al := r.artists[ar].albums[i];
      assert al in r.artists[ar].albums;
      assert al in db.artists[ar].albums;
      ListedUnderOwnArtist(db, ar, al);
    }
  }

  lemma WithoutEmptyAlbumsValid(db: Catalog)
    requires Valid(db)
    ensures Valid(WithoutEmptyAlbums(db))
  {
    var gone := EmptyAlbums(db);
    forall t | t in db.tracks ensures db.tracks[t].album !in gone {
      assert HasTrack(db, db.tracks[t].album);
    }
    DropAlbumsValid(db, gone);
  }

  lemma WithoutLoneArtistsValid(db: Catalog)
    requires Valid(db)
    ensures Valid(WithoutLoneArtists(db))
  {
    var gone := LoneArtists(db);
    forall al | al in db.albums ensures db.albums[al].artist !in gone {
      assert HasAlbum(db, db.albums[al].artist);
    }
  }

  /** What is left of a consistent catalog is consistent: no album or
      artist is left listing or naming a deleted record. */
  lemma PruneValid(s: ScannerState, present: set<string>)
    requires Valid(s.db) && Prune(s, present).Success?
    ensures Valid(Prune(s, present).value.db)
  {
    var db1 := DropTracks(s.db, Doomed(s, present));
    DropTracksValid(s.db, Doomed(s, present));
    WithoutEmptyAlbumsValid(db1);
    WithoutLoneArtistsValid(WithoutEmptyAlbums(db1));
  }

  /** The deletion counters grow by the number of albums and artists the
      prune deleted; the track counter is not touched. */
  lemma PruneCounts(s: ScannerState, present: set<string>)
    requires Prune(s, present).Success?
    ensures var r := Prune(s, present).value;
            && r.counters.deletedAlbums == s.counters.deletedAlbums + (|s.db.albums| - |r.db.albums|)
            && r.counters.deletedArtists == s.counters.deletedArtists + (|s.db.artists| - |r.db.artists|)
            && r.counters.deletedTracks == s.counters.deletedTracks
  {
    var db1 := DropTracks(s.db, Doomed(s, present));
    var db2 := WithoutEmptyAlbums(db1);
    KeysMinus(db1.albums.Keys, EmptyAlbums(db1));
    KeysMinus(db2.artists.Keys, LoneArtists(db2));
  }

  lemma KeysMinus(keys: set<Id>, gone: set<Id>)
    requires gone <= keys
    ensures |keys - gone| == |keys| - |gone|
  {
    assert keys == (keys - gone) + gone;
  }

  // ---------------------------------------------------------------------
  // One deletion at a time, as the prune's loops perform them

  lemma WithoutNothing(s: seq<Id>)
    ensures Without(s, {}) == s
    decreases |s|
  {
    if s != [] {
      WithoutNothing(s[1..]);
      assert s == [s[0]] + s[1..];
    }
  }

  lemma DropNoTracks(db: Catalog)
    ensures DropTracks(db, {}) == db
  {
  }

  lemma DropNoAlbums(db: Catalog)
    ensures DropAlbums(db, {}) == db
  {
    forall ar | ar in db.artists ensures Without(db.artists[ar].albums, {}) == db.artists[ar].albums {
      WithoutNothing(db.artists[ar].albums);
    }
    assert DropAlbums(db, {}).artists == db.artists;
  }

  lemma DropNoArtists(db: Catalog)
    ensures DropArtists(db, {}) == db
  {
  }

  lemma DropTracksStep(db: Catalog, gone: set<Id>, id: Id)
    ensures DropTracks(db, gone + {id}) == DeleteTrack(DropTracks(db, gone), id)
  {
  }

  /** One artist's list after deleting one more album: the owner's list
      loses it once, any other list does not hold it. */
  lemma WithoutOneMore(a: Artist, gone: set<Id>, al: Id, own: bool)
    requires al !in gone && (own ==> NoDup(a.albums)) && (!own ==> al !in a.albums)
    ensures a.(albums := Without(a.albums, gone + {al})) ==
              if own then a.(albums := RemoveFirst(Without(a.albums, gone), al)) else a.(albums := Without(a.albums, gone))
  {
    if own {
      RemoveFirstWithout(a.albums, gone, al);
    } else {
      WithoutAbsent(a.albums, gone, al);
    }
  }

  /** The artist lists after deleting one more album: only its owner's list
      changes, losing the album once. */
  lemma DropAlbumsStepLists(db: Catalog, gone: set<Id>, al: Id, owner: Id)
    requires owner in db.artists && al !in gone
    requires NoDup(db.artists[owner].albums)
    requires forall ar :: ar in db.artists && ar != owner ==> al !in db.artists[ar].albums
    ensures var w := DropAlbums(db, gone).artists;
            && owner in w
            && DropAlbums(db, gone + {al}).artists == w[owner := w[owner].(albums := RemoveFirst(w[owner].albums, al))]
  {
    var w := DropAlbums(db, gone).artists;
    var r := DropAlbums(db, gone + {al}).artists;
    var u := w[owner := w[owner].(albums := RemoveFirst(w[owner].albums, al))];
    forall ar | ar in db.artists
      ensures r[ar] == u[ar]
    {
      WithoutOneMore(db.artists[ar], gone, al, ar == owner);
    }
    assert r.Keys == u.Keys;
  }

  /** Album `al`'s artist is stored and lists it once, and no other artist
      lists it. */
  predicate SoleOwner(db: Catalog, al: Id)
    requires al in db.albums
  {
    && db.albums[al].artist in db.artists
    && NoDup(db.artists[db.albums[al].artist].albums)
    && (forall ar :: ar in db.artists && ar != db.albums[al].artist ==> al !in db.artists[ar].albums)
  }

  /** Every album has its artist as sole owner. */
  predicate OwnedOnce(db: Catalog) {
    forall al {:trigger SoleOwner(db, al)} :: al in db.albums ==> SoleOwner(db, al)
  }

  lemma ValidOwnedOnce(db: Catalog)
    requires Valid(db)
    ensures OwnedOnce(db)
  {
    forall al | al in db.albums
      ensures SoleOwner(db, al)
    {
      forall ar | ar in db.artists && ar != db.albums[al].artist
        ensures al !in db.artists[ar].albums
      {
        ListedUnderOwnArtist(db, ar, al);
      }
    }
  }

  /** Deleting one more album is taking it off its own artist's list, once:
      no other artist lists it. */
  lemma DropAlbumsStep(db: Catalog, gone: set<Id>, al: Id)
    requires al in db.albums && al !in gone && SoleOwner(db, al)
    ensures var w := DropAlbums(db, gone);
            && al in w.albums && w.albums[al].artist in w.artists
            && DropAlbums(db, gone + {al}) == DeleteAlbum(w, al)
  {
    DropAlbumsStepLists(db, gone, al, db.albums[al].artist);
    DropAlbumsStepAlbums(db, gone, al);
  }

  lemma DropAlbumsStepAlbums(db: Catalog, gone: set<Id>, al: Id)
    ensures DropAlbums(db, gone + {al}).albums == DropAlbums(db, gone).albums - {al}
  {
  }

  lemma DropArtistsStep(db: Catalog, gone: set<Id>, ar: Id)
    ensures DropArtists(db, gone + {ar}) == DeleteArtist(DropArtists(db, gone), ar)
  {
  }

  // ---------------------------------------------------------------------
  // __remove_track

  /** Each loaded playlist, in order, loses its first copy of `id`, if it
      has one. */
  function DropFromPlaylists(pl: map<Id, seq<Id>>, order: seq<Id>, id: Id): (r: map<Id, seq<Id>>)
    ensures r.Keys == pl.Keys
    decreases |order|
  {
    if order == [] then pl
    else
      var r1 := DropFromPlaylists(pl, order[..|order| - 1], id);
      var p := order[|order| - 1];
      if p in r1 then r1[p := RemoveFirst(r1[p], id)] else r1
  }

  /** With each playlist loaded once, every loaded playlist loses one copy
      of the track, and the others are left as they were. */
  lemma {:induction false} DropFromPlaylistsEach(pl: map<Id, seq<Id>>, order: seq<Id>, id: Id)
    requires NoDup(order)
    ensures var r := DropFromPlaylists(pl, order, id);
            forall p :: p in pl ==> r[p] == if p in order then RemoveFirst(pl[p], id) else pl[p]
    decreases |order|
  {
    if order != [] {
      var init := order[..|order| - 1];
      assert NoDup(init);
      DropFromPlaylistsEach(pl, init, id);
      var last := order[|order| - 1];
      assert last !in init;
      forall p | p in order ensures p in init || p == last {
        var i :| 0 <= i < |order| && order[i] == p;
        if i < |order| - 1 { assert init[i] == p; }
      }
      forall p | p in init ensures p in order {
        var i :| 0 <= i < |init| && init[i] == p;
        assert order[i] == p;
      }
    }
  }

  /** `__remove_track`: the track is deleted, taken off every loaded
      playlist that holds it, and counted. */
  function RemoveTrack(s: ScannerState, id: Id): (r: ScannerState)
    requires id in s.db.tracks
  {
    s.(db := DeleteTrack(s.db, id).(playlists := DropFromPlaylists(s.db.playlists, s.playlists, id)),
       counters := s.counters.(deletedTracks := s.counters.deletedTracks + 1))
  }

  /** With each playlist loaded once, every loaded playlist loses one
      copy of the track, and the others are left as they were. */
  lemma DropFromPlaylistsCopies(pl: map<Id, seq<Id>>, order: seq<Id>, id: Id)
    requires NoDup(order)
    ensures var r := DropFromPlaylists(pl, order, id);
            && (forall p :: p in pl && p in order ==> multiset(r[p]) == multiset(pl[p]) - multiset{id})
            && (forall p :: p in pl && p !in order ==> r[p] == pl[p])
  {
    DropFromPlaylistsEach(pl, order, id);
  }

  /** Removing a track keeps the catalog and the scanner's tables consistent. */
  lemma RemoveTrackConsistent(s: ScannerState, id: Id)
    requires Consistent(s) && id in s.db.tracks
    ensures Consistent(RemoveTrack(s, id))
  {
    var r := RemoveTrack(s, id);
    DeleteTrackValid(s.db, id, r.db.playlists);
    assert r.db.artists == s.db.artists && r.db.folders == s.db.folders && r.db.nextId == s.db.nextId;
    assert r.artistIndex == s.artistIndex && r.folderIndex == s.folderIndex && r.trackIndex == s.trackIndex;
    assert r.db.playlists.Keys == s.db.playlists.Keys && r.playlists == s.playlists;
  }

  /** Removing a track deletes exactly that track, takes one copy of it off
      each loaded playlist and counts it. */
  lemma RemoveTrackSpec(s: ScannerState, id: Id)
    requires id in s.db.tracks && NoDup(s.playlists)
    ensures var r := RemoveTrack(s, id);
            && r.db.tracks.Keys == s.db.tracks.Keys - {id}
            && r.db.playlists.Keys == s.db.playlists.Keys
            && (forall p :: p in s.db.playlists && p in s.playlists ==>
                  multiset(r.db.playlists[p]) == multiset(s.db.playlists[p]) - multiset{id})
            && (forall p :: p in s.db.playlists && p !in s.playlists ==> r.db.playlists[p] == s.db.playlists[p])
            && r.counters.deletedTracks == s.counters.deletedTracks + 1
  {
    DropFromPlaylistsCopies(s.db.playlists, s.playlists, id);
  }

  /** `stats`: what the scanner added and deleted. */
  function Stats(s: ScannerState): ((nat, nat, nat), (nat, nat, nat)) {
    ((s.counters.addedArtists, s.counters.addedAlbums, s.counters.addedTracks),
     (s.counters.deletedArtists, s.counters.deletedAlbums, s.counters.deletedTracks))
  }

  /** After a scan, the added counts in the statistics grew by the number
      of artists, albums and tracks the catalog gained. */
  lemma ScanStats(s: ScannerState, root: Id, walk: seq<DirEntry>, filetypes: string, tags: map<string, Tags>, finished: real)
    requires Consistent(s) && root in s.db.folders
    ensures var r := Scan(s, root, walk, filetypes, tags, finished);
            && Stats(r).0.0 - Stats(s).0.0 == |r.db.artists| - |s.db.artists|
            && Stats(r).0.1 - Stats(s).0.1 == |r.db.albums| - |s.db.albums|
            && Stats(r).0.2 - Stats(s).0.2 == |r.db.tracks| - |s.db.tracks|
            && Stats(r).1 == Stats(s).1
  {
    ScanPreserves(s, root, walk, filetypes, tags, finished);
  }
}
