/**
 * The persisted catalog as the scanner sees it through its database
 * session: folders, artists, albums, tracks and playlists, each a record
 * keyed by its id.  References between records are ids.  An artist keeps
 * the ordered list of its albums (the relationship list the scanner reads
 * and edits); an album names its artist; a track names its album and folder.
 */
module Catalog {
  import opened Wrappers

  type Id = nat

  /** `last_scan` is `None` until the folder is first scanned: the column's
      default, earlier than any time. */
  datatype Folder = Folder(path: string, parent: Option<Id>, created: real, lastScan: Option<real>)

  datatype Artist = Artist(name: string, albums: seq<Id>)

  datatype Album = Album(name: string, artist: Id, year: int)

  datatype Track = Track(
    path: string,
    folder: Option<Id>,
    album: Id,
    disc: int,
    number: int,
    title: string,
    year: int,
    genre: string,
    artist: string,
    bitrate: int,           // kbit/s
    duration: int,          // seconds
    lastModification: int,  // file mtime, whole seconds
    created: int)

  datatype Catalog = Catalog(
    folders: map<Id, Folder>,
    artists: map<Id, Artist>,
    albums: map<Id, Album>,
    tracks: map<Id, Track>,
    playlists: map<Id, seq<Id>>,
    nextId: Id)

  /** Every id in use is below `nextId`, so `nextId` is a fresh key. */
  predicate IdsBelow(db: Catalog) {
    && (forall k :: k in db.folders ==> k < db.nextId)
    && (forall k :: k in db.artists ==> k < db.nextId)
    && (forall k :: k in db.albums ==> k < db.nextId)
    && (forall k :: k in db.tracks ==> k < db.nextId)
    && (forall k :: k in db.playlists ==> k < db.nextId)
  }

  /** The artist's album list and the album's artist agree, each album is
      listed once, and every track belongs to a stored album and folder. */
  predicate Linked(db: Catalog) {
    && (forall ar :: ar in db.artists ==> NoDup(db.artists[ar].albums))
    && (forall ar, i :: ar in db.artists && 0 <= i < |db.artists[ar].albums| ==>
          db.artists[ar].albums[i] in db.albums && db.albums[db.artists[ar].albums[i]].artist == ar)
    && (forall al :: al in db.albums ==>
          db.albums[al].artist in db.artists && al in db.artists[db.albums[al].artist].albums)
    && (forall t :: t in db.tracks ==>
          db.tracks[t].album in db.albums && db.tracks[t].folder.Some? && db.tracks[t].folder.value in db.folders)
  }

  predicate Valid(db: Catalog) {
    IdsBelow(db) && Linked(db)
  }

  /** An album id is on exactly its own artist's list. */
  lemma ListedUnderOwnArtist(db: Catalog, ar: Id, al: Id)
    requires Valid(db) && ar in db.artists
    ensures al in db.artists[ar].albums <==> al in db.albums && db.albums[al].artist == ar
  {
    if al in db.artists[ar].albums {
      var i :| 0 <= i < |db.artists[ar].albums| && db.artists[ar].albums[i] == al;
    }
  }

  // ---------------------------------------------------------------------
  // Writes through the session

  /** A new artist with no albums, under the next id. */
  function WithArtist(db: Catalog, name: string): Catalog {
    db.(artists := db.artists[db.nextId := Artist(name, [])], nextId := db.nextId + 1)
  }

  /** A new album of artist `ar` under the next id, appended to the
      artist's list (the relationship's back-reference). */
  function WithAlbum(db: Catalog, ar: Id, name: string, year: int): Catalog
    requires ar in db.artists
  {
    var artist := db.artists[ar];
    db.(albums := db.albums[db.nextId := Album(name, ar, year)],
        artists := db.artists[ar := artist.(albums := artist.albums + [db.nextId])],
        nextId := db.nextId + 1)
  }

  /** A new track under the next id. */
  function WithTrack(db: Catalog, t: Track): Catalog {
    db.(tracks := db.tracks[db.nextId := t], nextId := db.nextId + 1)
  }

  /** A new folder under the next id. */
  function WithFolder(db: Catalog, f: Folder): Catalog {
    db.(folders := db.folders[db.nextId := f], nextId := db.nextId + 1)
  }

  /** `album.artist.albums.remove(album)`, then `session.delete(album)`. */
  function DeleteAlbum(db: Catalog, al: Id): Catalog
    requires al in db.albums && db.albums[al].artist in db.artists
  {
    var owner := db.albums[al].artist;
    db.(albums := db.albums - {al},
        artists := db.artists[owner := db.artists[owner].(albums := RemoveFirst(db.artists[owner].albums, al))])
  }

  /** `session.delete(artist)` */
  function DeleteArtist(db: Catalog, ar: Id): Catalog {
    db.(artists := db.artists - {ar})
  }

  /** `session.delete(track)` */
  function DeleteTrack(db: Catalog, t: Id): Catalog {
    db.(tracks := db.tracks - {t})
  }

  lemma WithArtistValid(db: Catalog, name: string)
    requires Valid(db)
    ensures db.nextId !in db.artists && Valid(WithArtist(db, name))
  {
  }

  lemma WithAlbumValid(db: Catalog, ar: Id, name: string, year: int)
    requires Valid(db) && ar in db.artists
    ensures db.nextId !in db.albums && Valid(WithAlbum(db, ar, name, year))
  {
    var id := db.nextId;
    var r := WithAlbum(db, ar, name, year);
    var listed := db.artists[ar].albums;
    assert id !in listed;
    assert NoDup(listed + [id]) by {
      forall i, j | 0 <= i < j < |listed + [id]| ensures (listed + [id])[i] != (listed + [id])[j] {
        if j < |listed| {
          assert listed[i] != listed[j];
        } else {
          assert (listed + [id])[i] == listed[i];
        }
      }
    }
    assert forall ar', i :: ar' in r.artists && 0 <= i < |r.artists[ar'].albums| ==>
        r.artists[ar'].albums[i] in r.albums && r.albums[r.artists[ar'].albums[i]].artist == ar' by {
      forall ar', i | ar' in r.artists && 0 <= i < |r.artists[ar'].albums|
        ensures r.artists[ar'].albums[i] in r.albums && r.albums[r.artists[ar'].albums[i]].artist == ar'
      {
        if ar' == ar && i == |listed| {
        } else if ar' == ar {
          assert r.artists[ar'].albums[i] == listed[i];
        }
      }
    }
    forall al | al in r.albums
      ensures r.albums[al].artist in r.artists && al in r.artists[r.albums[al].artist].albums
    {
      if al != id {
        var owner := db.albums[al].artist;
        assert al in db.artists[owner].albums;
        assert al in r.artists[owner].albums;
      }
    }
  }

  /** Writing a track whose album and folder exist, under an id in use. */
  lemma PutTrackValid(db: Catalog, id: Id, t: Track)
    requires Valid(db) && id < db.nextId
    requires t.album in db.albums && t.folder.Some? && t.folder.value in db.folders
    ensures Valid(db.(tracks := db.tracks[id := t]))
  {
  }

  lemma WithTrackValid(db: Catalog, t: Track)
    requires Valid(db)
    requires t.album in db.albums && t.folder.Some? && t.folder.value in db.folders
    ensures db.nextId !in db.tracks && Valid(WithTrack(db, t))
  {
  }

  /** Changing a stored folder's fields. */
  lemma PutFolderValid(db: Catalog, id: Id, f: Folder)
    requires Valid(db) && id in db.folders
    ensures Valid(db.(folders := db.folders[id := f]))
  {
  }

  lemma WithFolderValid(db: Catalog, f: Folder)
    requires Valid(db)
    ensures db.nextId !in db.folders && Valid(WithFolder(db, f))
  {
  }

  /** Deleting a track, and rewriting the playlists without adding one,
      keeps the catalog valid. */
  lemma DeleteTrackValid(db: Catalog, t: Id, pl: map<Id, seq<Id>>)
    requires Valid(db) && pl.Keys == db.playlists.Keys
    ensures Valid(DeleteTrack(db, t).(playlists := pl))
  {
    var r := DeleteTrack(db, t).(playlists := pl);
    assert r.artists == db.artists && r.albums == db.albums && r.folders == db.folders;
    assert r.tracks.Keys <= db.tracks.Keys;
    forall k | k in r.tracks
      ensures r.tracks[k] == db.tracks[k]
    {
    }
  }

  // ---------------------------------------------------------------------
  // Sequences as Python lists

  predicate NoDup(s: seq<Id>) {
    forall i, j :: 0 <= i < j < |s| ==> s[i] != s[j]
  }

  /** `list.remove(x)` when `x` is present: drops its first occurrence and
      keeps the order of the rest. */
  function RemoveFirst(s: seq<Id>, x: Id): (r: seq<Id>)
    ensures multiset(r) == multiset(s) - multiset{x}
    ensures x !in s ==> r == s
    decreases |s|
  {
    if s == [] then []
    else
      assert s == [s[0]] + s[1..];
      if s[0] == x then s[1..] else [s[0]] + RemoveFirst(s[1..], x)
  }

  /** What `list.remove(x)` takes off is the first occurrence of `x`: the
      elements before and after it are kept, in order. */
  lemma {:induction false} RemoveFirstDropsFirst(s: seq<Id>, x: Id)
    requires x in s
    ensures exists i :: 0 <= i < |s| && s[i] == x && x !in s[..i] && RemoveFirst(s, x) == s[..i] + s[i + 1..]
    decreases |s|
  {
    if s[0] == x {
      assert s[..0] + s[0 + 1..] == s[1..];
    } else {
      assert x in s[1..] by { assert s == [s[0]] + s[1..]; }
      RemoveFirstDropsFirst(s[1..], x);
      var i :| 0 <= i < |s[1..]| && s[1..][i] == x && x !in s[1..][..i] && RemoveFirst(s[1..], x) == s[1..][..i] + s[1..][i + 1..];
      assert s == [s[0]] + s[1..];
      RemoveFirstShift(s[0], s[1..], x, i);
    }
  }

  /** The step of the lemma above: an occurrence found in the tail, behind a
      head that is not `x`, is the first in the whole list. */
  lemma RemoveFirstShift(h: Id, w: seq<Id>, x: Id, i: nat)
    requires h != x && i < |w| && w[i] == x && x !in w[..i]
    requires RemoveFirst(w, x) == w[..i] + w[i + 1..]
    ensures var s := [h] + w;
      s[i + 1] == x && x !in s[..i + 1] && RemoveFirst(s, x) == s[..i + 1] + s[i + 1 + 1..]
  {
    ConsSplit(h, w, i);
    RemoveFirstCons(h, w, x);
  }

  /** Cutting `[h] + w` around position `i + 1` is cutting `w` around `i`. */
  lemma ConsSplit(h: Id, w: seq<Id>, i: nat)
    requires i < |w|
    ensures var s := [h] + w;
      s[i + 1] == w[i] && s[..i + 1] == [h] + w[..i]
      && s[..i + 1] + s[i + 1 + 1..] == [h] + (w[..i] + w[i + 1..])
  {
    var s := [h] + w;
    assert s[..i + 1] == [h] + w[..i];
    assert s[i + 1 + 1..] == w[i + 1..];
  }

  /** The list with every element of `gone` left out, order kept. */
  function Without(s: seq<Id>, gone: set<Id>): (r: seq<Id>)
    ensures forall x :: x in r <==> x in s && x !in gone
    decreases |s|
  {
    if s == [] then []
    else (if s[0] in gone then [] else [s[0]]) + Without(s[1..], gone)
  }

  lemma WithoutKeepsNoDup(s: seq<Id>, gone: set<Id>)
    requires NoDup(s)
    ensures NoDup(Without(s, gone))
    decreases |s|
  {
    if s != [] {
      WithoutKeepsNoDup(s[1..], gone);
      var w := Without(s[1..], gone);
      var r := Without(s, gone);
      if s[0] !in gone {
        assert s[0] !in w by {
          assert forall k :: 1 <= k < |s| ==> s[k] != s[0];
          assert s[0] !in s[1..];
        }
        assert r == [s[0]] + w;
        forall i, j | 0 <= i < j < |r| ensures r[i] != r[j] {
          if i == 0 { assert r[j] == w[j - 1]; assert r[j] in w; }
          else { assert r[i] == w[i - 1] && r[j] == w[j - 1]; }
        }
      }
    }
  }

  /** Leaving out an element the list does not hold changes nothing. */
  lemma WithoutAbsent(s: seq<Id>, gone: set<Id>, x: Id)
    requires x !in s
    ensures Without(s, gone + {x}) == Without(s, gone)
    decreases |s|
  {
    if s != [] {
      assert s[0] != x;
      WithoutAbsent(s[1..], gone, x);
    }
  }

  lemma NoDupTail(s: seq<Id>)
    requires NoDup(s) && s != []
    ensures NoDup(s[1..]) && s[0] !in s[1..]
  {
    forall i, j | 0 <= i < j < |s[1..]| ensures s[1..][i] != s[1..][j] { assert s[i + 1] != s[j + 1]; }
  }

  lemma RemoveFirstCons(h: Id, w: seq<Id>, x: Id)
    ensures RemoveFirst([h] + w, x) == if h == x then w else [h] + RemoveFirst(w, x)
  {
    assert ([h] + w)[0] == h && ([h] + w)[1..] == w;
  }

  /** The base of the next lemma: the element removed heads the list. */
  lemma RemoveFirstWithoutHead(s: seq<Id>, gone: set<Id>, x: Id)
    requires NoDup(s) && x !in gone && s != [] && s[0] == x
    ensures RemoveFirst(Without(s, gone), x) == Without(s, gone + {x})
  {
    var w := Without(s[1..], gone);
    NoDupTail(s);
    WithoutAbsent(s[1..], gone, x);
    assert Without(s, gone + {x}) == [] + Without(s[1..], gone + {x});
    assert Without(s, gone) == [x] + w;
    RemoveFirstCons(x, w, x);
  }

  /** Removing one more element, once, from a list without duplicates is
      leaving it out. */
  lemma {:induction false} RemoveFirstWithout(s: seq<Id>, gone: set<Id>, x: Id)
    requires NoDup(s) && x !in gone
    ensures RemoveFirst(Without(s, gone), x) == Without(s, gone + {x})
    decreases |s|
  {
    if s == [] {
      return;
    }
    var w := Without(s[1..], gone);
    if s[0] == x {
      RemoveFirstWithoutHead(s, gone, x);
    } else {
      NoDupTail(s);
      RemoveFirstWithout(s[1..], gone, x);
      assert Without(s, gone + {x}) == (if s[0] in gone then [] else [s[0]]) + Without(s[1..], gone + {x});
      if s[0] in gone {
        assert Without(s, gone) == w;
      } else {
        assert Without(s, gone) == [s[0]] + w;
        RemoveFirstCons(s[0], w, x);
      }
    }
  }
}
