/**
 * Scanning a tree a second time.  A file whose tags cannot be read, or
 * whose stored record is at least as recent as the file, is left as it is;
 * a walk made only of such files adds nothing.  After a first scan, a
 * scanner made from the catalog that scan left finds every file of the
 * same walk in that state, so scanning the same tree again adds no artist,
 * album or track.
 */
module Rescan {
  import opened Wrappers
  import opened Paths
  import opened Catalog
  import opened Reconcile

  // ---------------------------------------------------------------------
  // A scan that finds nothing new

  /** A file the scan leaves as it is: its tags cannot be read, or its
      path is in the track table and its record (if still stored) is at
      least as recent as the file. */
  predicate QuietFile(s: ScannerState, path: string, mtime: real, tags: map<string, Tags>) {
    path !in tags ||
    (path in s.trackIndex &&
     (s.trackIndex[path] in s.db.tracks ==> mtime.Floor <= s.db.tracks[s.trackIndex[path]].lastModification))
  }

  /** Every accepted file of a folder's listing is quiet. */
  predicate QuietFiles(s: ScannerState, dir: string, files: seq<FileEntry>, valid: seq<string>, tags: map<string, Tags>) {
    forall j :: 0 <= j < |files| && Accepted(files[j].name, valid) ==>
      QuietFile(s, Join(dir, files[j].name), files[j].mtime, tags)
  }

  /** Every accepted file of every directory of the walk is quiet. */
  predicate QuietWalk(s: ScannerState, walk: seq<DirEntry>, valid: seq<string>, tags: map<string, Tags>) {
    forall i :: 0 <= i < |walk| ==> QuietFiles(s, walk[i].path, walk[i].files, valid, tags)
  }

  /** From `s` to `r` no artist, album or track was added or had its tags
      applied: the artist and track tables, the artists, the albums, the
      set of tracks with each track's modification time, and the counters
      are as they were. */
  predicate AddsNothing(s: ScannerState, r: ScannerState) {
    && r.trackIndex == s.trackIndex
    && r.artistIndex == s.artistIndex
    && r.counters == s.counters
    && r.db.artists == s.db.artists
    && r.db.albums == s.db.albums
    && r.db.tracks.Keys == s.db.tracks.Keys
    && (forall id :: id in s.db.tracks ==> r.db.tracks[id].lastModification == s.db.tracks[id].lastModification)
  }

  /** A quiet file is at most filed again under its folder. */
  lemma ScanOneFileQuiet(s: ScannerState, fid: Id, path: string, mtime: real, tags: map<string, Tags>)
    requires Wf(s) && QuietFile(s, path, mtime, tags)
    ensures AddsNothing(s, ScanOneFile(s, fid, path, mtime, tags))
  {
    ScanFileUnchanged(s, path, mtime, TagsOf(tags, path));
  }

  /** A folder whose accepted files are all quiet adds nothing. */
  lemma {:induction false} ScanFilesQuiet(s: ScannerState, dir: string, fid: Id, files: seq<FileEntry>, valid: seq<string>, tags: map<string, Tags>)
    requires Wf(s) && QuietFiles(s, dir, files, valid, tags)
    ensures AddsNothing(s, ScanFiles(s, dir, fid, files, valid, tags))
    decreases |files|
  {
    if files != [] {
      var n := |files| - 1;
      var s1 := ScanFiles(s, dir, fid, files[..n], valid, tags);
      assert QuietFiles(s, dir, files[..n], valid, tags) by {
        forall j | 0 <= j < n ensures files[..n][j] == files[j] { }
      }
      ScanFilesQuiet(s, dir, fid, files[..n], valid, tags);
      if Accepted(files[n].name, valid) {
        var path := Join(dir, files[n].name);
        assert QuietFile(s, path, files[n].mtime, tags);
        assert QuietFile(s1, path, files[n].mtime, tags);
        ScanOneFileQuiet(s1, fid, path, files[n].mtime, tags);
      }
    }
  }

  /** A folder's new scan time, and a new folder, add nothing. */
  lemma FolderStepsAddNothing(s: ScannerState, root: Id, d: DirEntry, fid: Id, at: real)
    requires fid in s.db.folders
    ensures AddsNothing(s, Visited(s, fid, at)) && AddsNothing(s, Added(s, root, d))
  {
  }

  /** A directory whose accepted files are all quiet adds nothing, whether
      it is passed over, revisited or new. */
  lemma ScanDirQuiet(s: ScannerState, root: Id, d: DirEntry, valid: seq<string>, tags: map<string, Tags>)
    requires Wf(s) && QuietFiles(s, d.path, d.files, valid, tags)
    ensures AddsNothing(s, ScanDir(s, root, d, valid, tags))
  {
    if d.path in s.folderIndex {
      var fid := s.folderIndex[d.path];
      if !ScannedSince(d.mtime, s.db.folders[fid].lastScan) {
        var s1 := Visited(s, fid, d.visitedAt);
        FolderStepsAddNothing(s, root, d, fid, d.visitedAt);
        ScanFilesQuiet(s1, d.path, fid, d.files, valid, tags);
      }
    } else {
      var s1 := Added(s, root, d);
      assert AddsNothing(s, s1);
      ScanFilesQuiet(s1, d.path, s.db.nextId, d.files, valid, tags);
    }
  }

  /** A walk whose accepted files are all quiet adds no artist, album or
      track, applies no tags, and leaves the added counters as they were:
      only folders and their scan times change. */
  lemma {:induction false} ScanWalkQuiet(s: ScannerState, root: Id, walk: seq<DirEntry>, valid: seq<string>, tags: map<string, Tags>)
    requires Wf(s) && QuietWalk(s, walk, valid, tags)
    ensures AddsNothing(s, ScanWalk(s, root, walk, valid, tags))
    decreases |walk|
  {
    if walk != [] {
      var n := |walk| - 1;
      var s1 := ScanWalk(s, root, walk[..n], valid, tags);
      assert QuietWalk(s, walk[..n], valid, tags) by {
        forall i | 0 <= i < n ensures walk[..n][i] == walk[i] { }
      }
      ScanWalkQuiet(s, root, walk[..n], valid, tags);
      assert QuietFiles(s1, walk[n].path, walk[n].files, valid, tags) by {
        assert QuietFiles(s, walk[n].path, walk[n].files, valid, tags);
      }
      ScanDirQuiet(s1, root, walk[n], valid, tags);
    }
  }

  /** `scan` over a walk whose accepted files are all quiet adds nothing
      and leaves the added counters as they were. */
  lemma ScanQuiet(s: ScannerState, root: Id, walk: seq<DirEntry>, filetypes: string, tags: map<string, Tags>, finished: real)
    requires Wf(s) && root in s.db.folders && QuietWalk(s, walk, FileTypes(filetypes), tags)
    ensures var r := Scan(s, root, walk, filetypes, tags, finished);
            && r.db.artists == s.db.artists && r.db.albums == s.db.albums
            && r.db.tracks.Keys == s.db.tracks.Keys
            && r.counters.addedArtists == s.counters.addedArtists
            && r.counters.addedAlbums == s.counters.addedAlbums
            && r.counters.addedTracks == s.counters.addedTracks
  {
    ScanWalkQuiet(s, root, walk, FileTypes(filetypes), tags);
  }

  // ---------------------------------------------------------------------
  // What a first scan leaves for a second one

  /** What a scanner made from a catalog holds: its track table lists every
      stored track under its path, and only stored tracks. */
  predicate Loaded(s: ScannerState) {
    && Consistent(s)
    && (forall p :: p in s.trackIndex ==> s.trackIndex[p] in s.db.tracks)
    && (forall id :: id in s.db.tracks ==> s.db.tracks[id].path in s.trackIndex)
  }

  /** No two stored tracks share a path. */
  predicate UniquePaths(db: Catalog) {
    forall id1, id2 :: id1 in db.tracks && id2 in db.tracks && db.tracks[id1].path == db.tracks[id2].path ==> id1 == id2
  }

  /** File `j` of directory `i` of the walk is of an accepted type. */
  predicate IsEntry(walk: seq<DirEntry>, valid: seq<string>, i: int, j: int) {
    0 <= i < |walk| && 0 <= j < |walk[i].files| && Accepted(walk[i].files[j].name, valid)
  }

  /** The path of file `j` of directory `i` of the walk. */
  function EntryPath(walk: seq<DirEntry>, i: int, j: int): string
    requires 0 <= i < |walk| && 0 <= j < |walk[i].files|
  {
    Join(walk[i].path, walk[i].files[j].name)
  }

  /** The walk yields each directory once, and each accepted file path
      once. */
  ghost predicate DistinctWalk(walk: seq<DirEntry>, valid: seq<string>) {
    && (forall i1, i2 :: 0 <= i1 < |walk| && 0 <= i2 < |walk| && walk[i1].path == walk[i2].path ==> i1 == i2)
    && (forall i1, j1, i2, j2 ::
          (IsEntry(walk, valid, i1, j1) && IsEntry(walk, valid, i2, j2) &&
           EntryPath(walk, i1, j1) == EntryPath(walk, i2, j2)) ==> i1 == i2 && j1 == j2)
  }

  /** The scan passes over none of the walk's directories as unmodified. */
  predicate NotPassedOver(s: ScannerState, walk: seq<DirEntry>) {
    forall i :: 0 <= i < |walk| && walk[i].path in s.folderIndex ==>
      s.folderIndex[walk[i].path] in s.db.folders &&
      !ScannedSince(walk[i].mtime, s.db.folders[s.folderIndex[walk[i].path]].lastScan)
  }

  /** No accepted file of the listing has path `p`. */
  predicate Avoids(dir: string, files: seq<FileEntry>, valid: seq<string>, p: string) {
    forall j :: 0 <= j < |files| && Accepted(files[j].name, valid) ==> Join(dir, files[j].name) != p
  }

  /** The stored tracks with path `p`, and their modification times, are
      the same in `r` as in `t`. */
  predicate PathKept(t: ScannerState, r: ScannerState, p: string) {
    && (forall id :: id in r.db.tracks && r.db.tracks[id].path == p ==>
          id in t.db.tracks && t.db.tracks[id].path == p &&
          r.db.tracks[id].lastModification == t.db.tracks[id].lastModification)
    && (forall id :: id in t.db.tracks && t.db.tracks[id].path == p ==>
          id in r.db.tracks && r.db.tracks[id].path == p)
  }

  /** Some stored track has path `p`, and every one is at least as recent
      as the file. */
  predicate Covered(db: Catalog, p: string, mtime: real) {
    && (exists id :: id in db.tracks && db.tracks[id].path == p)
    && (forall id :: id in db.tracks && db.tracks[id].path == p ==> mtime.Floor <= db.tracks[id].lastModification)
  }

  /** The only stored track with path `p`, if any, is the one the track
      table gives, and the table gives only a stored track. */
  predicate PathOwned(t: ScannerState, p: string) {
    && (p in t.trackIndex ==> t.trackIndex[p] in t.db.tracks)
    && (forall id :: id in t.db.tracks && t.db.tracks[id].path == p ==> p in t.trackIndex && t.trackIndex[p] == id)
  }

  /** The folder of directory `dir`, and its scan time, are the same in `r`
      as in `t`. */
  predicate FolderKept(t: ScannerState, r: ScannerState, dir: string) {
    && (dir in r.folderIndex <==> dir in t.folderIndex)
    && (dir in t.folderIndex ==>
          && r.folderIndex[dir] == t.folderIndex[dir]
          && t.folderIndex[dir] in t.db.folders && t.folderIndex[dir] in r.db.folders
          && r.db.folders[t.folderIndex[dir]].lastScan == t.db.folders[t.folderIndex[dir]].lastScan)
  }

  lemma LoadedOwns(s: ScannerState, p: string)
    requires Loaded(s) && UniquePaths(s.db)
    ensures PathOwned(s, p)
  {
  }

  lemma OwnedKept(t: ScannerState, r: ScannerState, p: string)
    requires IndexSound(t) && PathOwned(t, p) && PathKept(t, r, p) && r.trackIndex == t.trackIndex
    ensures PathOwned(r, p)
  {
  }

  lemma CoveredKept(t: ScannerState, r: ScannerState, p: string, mtime: real)
    requires Covered(t.db, p, mtime) && PathKept(t, r, p)
    ensures Covered(r.db, p, mtime)
  {
    var id :| id in t.db.tracks && t.db.tracks[id].path == p;
    assert id in r.db.tracks && r.db.tracks[id].path == p;
  }

  lemma PathKeptChain(t: ScannerState, t1: ScannerState, r: ScannerState, p: string)
    requires PathKept(t, t1, p) && PathKept(t1, r, p)
    ensures PathKept(t, r, p)
  {
  }

  /** Storing the result for another path keeps the tracks with path `p`:
      a known track keeps its path, and a new one gets a fresh id. */
  lemma StoreAvoids(t: ScannerState, res: FileResult, q: string, fid: Id, p: string)
    requires Wf(t) && t.db.nextId !in t.db.tracks && q != p
    requires res.Scanned? ==> res.track.path == q
    requires res.Scanned? && res.known.Some? ==>
               res.known.value in t.db.tracks && t.db.tracks[res.known.value].path == q
    ensures PathKept(t, Store(t, res, fid), p)
  {
  }

  /** Scanning a file with another path keeps the tracks with path `p`. */
  lemma OneFileAvoids(t: ScannerState, fid: Id, q: string, mtime: real, tags: map<string, Tags>, p: string)
    requires Consistent(t) && q != p
    ensures PathKept(t, ScanOneFile(t, fid, q, mtime, tags), p)
  {
    var (res, t1) := ScanFile(t, q, mtime, TagsOf(tags, q));
    ScanFilePreserves(t, q, mtime, TagsOf(tags, q));
    assert PathKept(t, t1, p);
    if res.Scanned? && res.known.Some? {
      assert t1.trackIndex[q] == res.known.value;
    }
    StoreAvoids(t1, res, q, fid, p);
    PathKeptChain(t, t1, Store(t1, res, fid), p);
  }

  /** Scanning the file with path `p` whose tags are read gives a track with
      that path at least as recent as the file: the stored one, which the
      track table gives, or a new one when there is none. */
  lemma ScanFileCovers(t: ScannerState, p: string, mtime: real, tg: Tags)
    requires Wf(t) && IndexSound(t) && PathOwned(t, p)
    ensures var res := ScanFile(t, p, mtime, Some(tg)).0;
            && res.Scanned? && res.track.path == p && mtime.Floor <= res.track.lastModification
            && (res.known.Some? <==> p in t.trackIndex)
  {
    var cur := mtime.Floor;
    if p in t.trackIndex {
      var id := t.trackIndex[p];
      var tr := t.db.tracks[id];
      assert tr.path == p;
      if cur > tr.lastModification {
        assert ScanFile(t, p, mtime, Some(tg)).0 == Scanned(Some(id), ApplyTags(t, p, tr, cur, tg).1);
      }
    } else {
      assert ScanFile(t, p, mtime, Some(tg)).0 == Scanned(None, ApplyTags(CountTrack(t), p, NewTrack(p), cur, tg).1);
    }
  }

  /** Storing that track leaves it the only track with path `p`. */
  lemma StoreCovers(t: ScannerState, res: FileResult, p: string, fid: Id, mtime: real)
    requires Wf(t) && t.db.nextId !in t.db.tracks && PathOwned(t, p) && StoreReady(t, res, p)
    requires res.Scanned? && res.track.path == p && mtime.Floor <= res.track.lastModification
    requires res.known.Some? <==> p in t.trackIndex
    ensures Covered(Store(t, res, fid).db, p, mtime)
  {
    var r := Store(t, res, fid);
    var id := if res.known.Some? then res.known.value else t.db.nextId;
    assert id in r.db.tracks && r.db.tracks[id].path == p;
  }

  /** Scanning the file with path `p`, whose tags can be read, leaves a
      stored track with that path, and every such track at least as recent
      as the file. */
  lemma OneFileCovers(t: ScannerState, fid: Id, p: string, mtime: real, tags: map<string, Tags>)
    requires Consistent(t) && p in tags && PathOwned(t, p)
    ensures Covered(ScanOneFile(t, fid, p, mtime, tags).db, p, mtime)
  {
    var (res, t1) := ScanFile(t, p, mtime, Some(tags[p]));
    ScanFilePreserves(t, p, mtime, Some(tags[p]));
    ScanFileCovers(t, p, mtime, tags[p]);
    assert PathOwned(t1, p);
    StoreCovers(t1, res, p, fid, mtime);
  }

  lemma FilesConsistent(t: ScannerState, dir: string, fid: Id, files: seq<FileEntry>, valid: seq<string>, tags: map<string, Tags>)
    requires Consistent(t) && fid in t.db.folders
    ensures var r := ScanFiles(t, dir, fid, files, valid, tags);
            Consistent(r) && fid in r.db.folders && r.trackIndex == t.trackIndex
  {
    ScanFilesPreserves(t, dir, fid, files, valid, tags);
  }

  lemma WalkConsistent(s: ScannerState, root: Id, walk: seq<DirEntry>, valid: seq<string>, tags: map<string, Tags>)
    requires Consistent(s)
    ensures var r := ScanWalk(s, root, walk, valid, tags);
            Consistent(r) && r.trackIndex == s.trackIndex
  {
    ScanWalkPreserves(s, root, walk, valid, tags);
  }

  /** One entry of a listing, not at path `p`, keeps the tracks with that
      path, the catalog's consistency and the folder. */
  lemma EntryAvoids(t: ScannerState, dir: string, fid: Id, f: FileEntry, valid: seq<string>, tags: map<string, Tags>, p: string)
    requires Consistent(t) && fid in t.db.folders
    requires Accepted(f.name, valid) ==> Join(dir, f.name) != p
    ensures PathKept(t, ScanEntry(t, dir, fid, f, valid, tags), p)
  {
    if Accepted(f.name, valid) {
      OneFileAvoids(t, fid, Join(dir, f.name), f.mtime, tags, p);
    }
  }

  /** One entry of a listing, not at path `p`, keeps that path covered. */
  lemma EntryKeepsCovered(t: ScannerState, dir: string, fid: Id, f: FileEntry, valid: seq<string>,
                          tags: map<string, Tags>, p: string, mtime: real)
    requires Consistent(t) && fid in t.db.folders && Covered(t.db, p, mtime)
    requires Accepted(f.name, valid) ==> Join(dir, f.name) != p
    ensures Covered(ScanEntry(t, dir, fid, f, valid, tags).db, p, mtime)
  {
    EntryAvoids(t, dir, fid, f, valid, tags, p);
    CoveredKept(t, ScanEntry(t, dir, fid, f, valid, tags), p, mtime);
  }

  /** The first `k` files of a listing are scanned as the first `k - 1`
      followed by file `k - 1`. */
  lemma FilesPrefixStep(t: ScannerState, dir: string, fid: Id, files: seq<FileEntry>, k: nat,
                        valid: seq<string>, tags: map<string, Tags>)
    requires Wf(t) && 0 < k <= |files|
    ensures ScanFiles(t, dir, fid, files[..k], valid, tags)
            == ScanEntry(ScanFiles(t, dir, fid, files[..k - 1], valid, tags), dir, fid, files[k - 1], valid, tags)
  {
    assert files[..k][..k - 1] == files[..k - 1];
  }

  /** An entry not at path `p`, scanned after steps that kept the tracks
      with that path, keeps them too. */
  lemma EntryAvoidsAfter(t: ScannerState, t1: ScannerState, dir: string, fid: Id, f: FileEntry,
                         valid: seq<string>, tags: map<string, Tags>, p: string)
    requires Consistent(t1) && fid in t1.db.folders && PathKept(t, t1, p)
    requires Accepted(f.name, valid) ==> Join(dir, f.name) != p
    ensures PathKept(t, ScanEntry(t1, dir, fid, f, valid, tags), p)
  {
    EntryAvoids(t1, dir, fid, f, valid, tags, p);
    PathKeptChain(t, t1, ScanEntry(t1, dir, fid, f, valid, tags), p);
  }

  /** Scanning the first `k` files of a listing, none of them with path
      `p`, keeps the tracks with that path. */
  lemma {:induction false} FilesAvoid(t: ScannerState, dir: string, fid: Id, files: seq<FileEntry>, k: nat,
                                      valid: seq<string>, tags: map<string, Tags>, p: string)
    requires Consistent(t) && fid in t.db.folders && k <= |files|
    requires forall j :: 0 <= j < k && Accepted(files[j].name, valid) ==> Join(dir, files[j].name) != p
    ensures PathKept(t, ScanFiles(t, dir, fid, files[..k], valid, tags), p)
    decreases k
  {
    if k > 0 {
      var t1 := ScanFiles(t, dir, fid, files[..k - 1], valid, tags);
      FilesPrefixStep(t, dir, fid, files, k, valid, tags);
      FilesAvoid(t, dir, fid, files, k - 1, valid, tags, p);
      ScanFilesPreserves(t, dir, fid, files[..k - 1], valid, tags);
      EntryAvoidsAfter(t, t1, dir, fid, files[k - 1], valid, tags, p);
    }
  }

  /** An accepted entry whose tags can be read leaves its path covered. */
  lemma EntryCovers(t: ScannerState, dir: string, fid: Id, f: FileEntry, valid: seq<string>, tags: map<string, Tags>)
    requires Consistent(t) && fid in t.db.folders && Accepted(f.name, valid)
    requires Join(dir, f.name) in tags && PathOwned(t, Join(dir, f.name))
    ensures Covered(ScanEntry(t, dir, fid, f, valid, tags).db, Join(dir, f.name), f.mtime)
  {
    OneFileCovers(t, fid, Join(dir, f.name), f.mtime, tags);
  }

  /** Scanning the first `k` files of a listing, none of them at path `p`,
      leaves the catalog consistent and `p` owned as it was. */
  lemma FilesPrefixReady(t: ScannerState, dir: string, fid: Id, files: seq<FileEntry>, k: nat,
                         valid: seq<string>, tags: map<string, Tags>, p: string)
    requires Consistent(t) && fid in t.db.folders && k <= |files| && PathOwned(t, p)
    requires forall j :: 0 <= j < k && Accepted(files[j].name, valid) ==> Join(dir, files[j].name) != p
    ensures var r := ScanFiles(t, dir, fid, files[..k], valid, tags);
            Consistent(r) && fid in r.db.folders && PathOwned(r, p)
  {
    FilesConsistent(t, dir, fid, files[..k], valid, tags);
    FilesAvoid(t, dir, fid, files, k, valid, tags, p);
    OwnedKept(t, ScanFiles(t, dir, fid, files[..k], valid, tags), p);
  }

  /** Scanning a listing up to file `j0`, which alone has path `p` and
      whose tags can be read, leaves that path covered. */
  lemma FilesCoverAt(t: ScannerState, dir: string, fid: Id, files: seq<FileEntry>,
                     valid: seq<string>, tags: map<string, Tags>, j0: nat)
    requires Consistent(t) && fid in t.db.folders && j0 < |files| && Accepted(files[j0].name, valid)
    requires Join(dir, files[j0].name) in tags && PathOwned(t, Join(dir, files[j0].name))
    requires forall j :: 0 <= j < j0 && Accepted(files[j].name, valid) ==>
               Join(dir, files[j].name) != Join(dir, files[j0].name)
    ensures Covered(ScanFiles(t, dir, fid, files[..j0 + 1], valid, tags).db, Join(dir, files[j0].name), files[j0].mtime)
  {
    var p := Join(dir, files[j0].name);
    FilesPrefixStep(t, dir, fid, files, j0 + 1, valid, tags);
    FilesPrefixReady(t, dir, fid, files, j0, valid, tags, p);
    EntryCovers(ScanFiles(t, dir, fid, files[..j0], valid, tags), dir, fid, files[j0], valid, tags);
  }

  /** One more file of a listing, not at path `p`, keeps that path covered. */
  lemma FilesCoverStep(t: ScannerState, dir: string, fid: Id, files: seq<FileEntry>, k: nat,
                       valid: seq<string>, tags: map<string, Tags>, p: string, mtime: real)
    requires Consistent(t) && fid in t.db.folders && 0 < k <= |files|
    requires Accepted(files[k - 1].name, valid) ==> Join(dir, files[k - 1].name) != p
    requires Covered(ScanFiles(t, dir, fid, files[..k - 1], valid, tags).db, p, mtime)
    ensures Covered(ScanFiles(t, dir, fid, files[..k], valid, tags).db, p, mtime)
  {
    var t1 := ScanFiles(t, dir, fid, files[..k - 1], valid, tags);
    FilesPrefixStep(t, dir, fid, files, k, valid, tags);
    FilesConsistent(t, dir, fid, files[..k - 1], valid, tags);
    EntryKeepsCovered(t1, dir, fid, files[k - 1], valid, tags, p, mtime);
  }

  /** Scanning the first `k` files of a listing, of which file `j0` alone
      has path `p` and its tags can be read, leaves that path covered. */
  lemma {:induction false} FilesCover(t: ScannerState, dir: string, fid: Id, files: seq<FileEntry>, k: nat,
                                      valid: seq<string>, tags: map<string, Tags>, j0: nat)
    requires Consistent(t) && fid in t.db.folders && j0 < k <= |files| && Accepted(files[j0].name, valid)
    requires Join(dir, files[j0].name) in tags && PathOwned(t, Join(dir, files[j0].name))
    requires forall j :: 0 <= j < |files| && j != j0 && Accepted(files[j].name, valid) ==>
               Join(dir, files[j].name) != Join(dir, files[j0].name)
    ensures Covered(ScanFiles(t, dir, fid, files[..k], valid, tags).db, Join(dir, files[j0].name), files[j0].mtime)
    decreases k
  {
    if k == j0 + 1 {
      FilesCoverAt(t, dir, fid, files, valid, tags, j0);
    } else {
      FilesCover(t, dir, fid, files, k - 1, valid, tags, j0);
      FilesCoverStep(t, dir, fid, files, k, valid, tags, Join(dir, files[j0].name), files[j0].mtime);
    }
  }

  /** A directory none of whose files has path `p` keeps the tracks with
      that path. */
  lemma DirAvoids(t: ScannerState, root: Id, d: DirEntry, valid: seq<string>, tags: map<string, Tags>, p: string)
    requires Consistent(t) && Avoids(d.path, d.files, valid, p)
    ensures PathKept(t, ScanDir(t, root, d, valid, tags), p)
  {
    assert d.files[..|d.files|] == d.files;
    if d.path in t.folderIndex {
      var fid := t.folderIndex[d.path];
      if !ScannedSince(d.mtime, t.db.folders[fid].lastScan) {
        var t1 := Visited(t, fid, d.visitedAt);
        VisitedPreserves(t, fid, d.visitedAt);
        FilesAvoid(t1, d.path, fid, d.files, |d.files|, valid, tags, p);
        PathKeptChain(t, t1, ScanFiles(t1, d.path, fid, d.files, valid, tags), p);
      }
    } else {
      var t1 := Added(t, root, d);
      AddedPreserves(t, root, d);
      FilesAvoid(t1, d.path, t.db.nextId, d.files, |d.files|, valid, tags, p);
      PathKeptChain(t, t1, ScanFiles(t1, d.path, t.db.nextId, d.files, valid, tags), p);
    }
  }

  /** A directory without a file at path `p` keeps that path covered. */
  lemma DirKeepsCovered(t: ScannerState, root: Id, d: DirEntry, valid: seq<string>, tags: map<string, Tags>,
                        p: string, mtime: real)
    requires Consistent(t) && Avoids(d.path, d.files, valid, p) && Covered(t.db, p, mtime)
    ensures Covered(ScanDir(t, root, d, valid, tags).db, p, mtime)
  {
    DirAvoids(t, root, d, valid, tags, p);
    CoveredKept(t, ScanDir(t, root, d, valid, tags), p, mtime);
  }

  /** A directory keeps the folder of every other directory and its scan
      time. */
  lemma DirKeepsFolder(t: ScannerState, root: Id, d: DirEntry, valid: seq<string>, tags: map<string, Tags>, dir: string)
    requires Consistent(t) && dir != d.path
    ensures FolderKept(t, ScanDir(t, root, d, valid, tags), dir)
  {
    if d.path in t.folderIndex && dir in t.folderIndex {
      assert t.db.folders[t.folderIndex[dir]].path == dir;
      assert t.db.folders[t.folderIndex[d.path]].path == d.path;
    }
  }

  lemma FolderKeptChain(t: ScannerState, t1: ScannerState, r: ScannerState, dir: string)
    requires FolderKept(t, t1, dir) && FolderKept(t1, r, dir)
    ensures FolderKept(t, r, dir)
  {
  }

  /** A directory whose file `j0` alone has path `p`, with readable tags,
      and which the scan does not pass over, leaves that path covered. */
  lemma DirCovers(t: ScannerState, root: Id, d: DirEntry, valid: seq<string>, tags: map<string, Tags>, j0: nat)
    requires Consistent(t) && j0 < |d.files| && Accepted(d.files[j0].name, valid)
    requires Join(d.path, d.files[j0].name) in tags && PathOwned(t, Join(d.path, d.files[j0].name))
    requires forall j :: 0 <= j < |d.files| && j != j0 && Accepted(d.files[j].name, valid) ==>
               Join(d.path, d.files[j].name) != Join(d.path, d.files[j0].name)
    requires d.path in t.folderIndex ==> !ScannedSince(d.mtime, t.db.folders[t.folderIndex[d.path]].lastScan)
    ensures Covered(ScanDir(t, root, d, valid, tags).db, Join(d.path, d.files[j0].name), d.files[j0].mtime)
  {
    assert d.files[..|d.files|] == d.files;
    if d.path in t.folderIndex {
      var fid := t.folderIndex[d.path];
      VisitedPreserves(t, fid, d.visitedAt);
      FilesCover(Visited(t, fid, d.visitedAt), d.path, fid, d.files, |d.files|, valid, tags, j0);
    } else {
      AddedPreserves(t, root, d);
      FilesCover(Added(t, root, d), d.path, t.db.nextId, d.files, |d.files|, valid, tags, j0);
    }
  }

  /** The first `k` directories of a walk are scanned as the first `k - 1`
      followed by directory `k - 1`. */
  lemma WalkPrefixStep(s: ScannerState, root: Id, walk: seq<DirEntry>, k: nat, valid: seq<string>, tags: map<string, Tags>)
    requires Wf(s) && 0 < k <= |walk|
    ensures ScanWalk(s, root, walk[..k], valid, tags)
            == ScanDir(ScanWalk(s, root, walk[..k - 1], valid, tags), root, walk[k - 1], valid, tags)
  {
    assert walk[..k][..k - 1] == walk[..k - 1];
  }

  /** The first `k` directories of the walk, none with a file at path `p`
      or with path `dir`, keep the tracks with path `p` and the folder of
      `dir`. */
  lemma {:induction false} WalkKeeps(s: ScannerState, root: Id, walk: seq<DirEntry>, k: nat,
                                     valid: seq<string>, tags: map<string, Tags>, p: string, dir: string)
    requires Consistent(s) && k <= |walk|
    requires forall i, j :: 0 <= i < k && IsEntry(walk, valid, i, j) ==> EntryPath(walk, i, j) != p
    requires forall i :: 0 <= i < k ==> walk[i].path != dir
    ensures var r := ScanWalk(s, root, walk[..k], valid, tags);
            PathKept(s, r, p) && FolderKept(s, r, dir)
    decreases k
  {
    if k > 0 {
      var s1 := ScanWalk(s, root, walk[..k - 1], valid, tags);
      WalkPrefixStep(s, root, walk, k, valid, tags);
      WalkKeeps(s, root, walk, k - 1, valid, tags, p, dir);
      WalkConsistent(s, root, walk[..k - 1], valid, tags);
      var d := walk[k - 1];
      forall j | 0 <= j < |d.files| && Accepted(d.files[j].name, valid)
        ensures Join(d.path, d.files[j].name) != p
      {
        assert IsEntry(walk, valid, k - 1, j);
      }
      DirAvoids(s1, root, d, valid, tags, p);
      DirKeepsFolder(s1, root, d, valid, tags, dir);
      PathKeptChain(s, s1, ScanDir(s1, root, d, valid, tags), p);
      FolderKeptChain(s, s1, ScanDir(s1, root, d, valid, tags), dir);
    }
  }

  /** The directories before `i0`, which neither hold a file at path `p`
      nor are directory `i0`, leave the catalog consistent, `p` owned as it
      was, and the folder of directory `i0` as it was. */
  lemma WalkPrefixReady(s: ScannerState, root: Id, walk: seq<DirEntry>, valid: seq<string>, tags: map<string, Tags>,
                        i0: nat, p: string)
    requires Consistent(s) && PathOwned(s, p) && i0 < |walk|
    requires forall i, j :: 0 <= i < i0 && IsEntry(walk, valid, i, j) ==> EntryPath(walk, i, j) != p
    requires forall i :: 0 <= i < i0 ==> walk[i].path != walk[i0].path
    ensures var r := ScanWalk(s, root, walk[..i0], valid, tags);
            Consistent(r) && PathOwned(r, p) && FolderKept(s, r, walk[i0].path)
  {
    WalkConsistent(s, root, walk[..i0], valid, tags);
    WalkKeeps(s, root, walk, i0, valid, tags, p, walk[i0].path);
    OwnedKept(s, ScanWalk(s, root, walk[..i0], valid, tags), p);
  }

  /** The directory `i0` holding the file, scanned after the directories
      before it, which neither hold a file at its path nor are the same
      directory, leaves its path covered. */
  lemma WalkCoverAt(s: ScannerState, root: Id, walk: seq<DirEntry>, valid: seq<string>, tags: map<string, Tags>,
                    i0: nat, j0: nat)
    requires Loaded(s) && UniquePaths(s.db) && NotPassedOver(s, walk)
    requires IsEntry(walk, valid, i0, j0) && EntryPath(walk, i0, j0) in tags
    requires forall i, j :: 0 <= i < i0 && IsEntry(walk, valid, i, j) ==> EntryPath(walk, i, j) != EntryPath(walk, i0, j0)
    requires forall i :: 0 <= i < i0 ==> walk[i].path != walk[i0].path
    requires forall j :: 0 <= j < |walk[i0].files| && j != j0 && Accepted(walk[i0].files[j].name, valid) ==>
               Join(walk[i0].path, walk[i0].files[j].name) != EntryPath(walk, i0, j0)
    ensures Covered(ScanWalk(s, root, walk[..i0 + 1], valid, tags).db, EntryPath(walk, i0, j0), walk[i0].files[j0].mtime)
  {
    var p := EntryPath(walk, i0, j0);
    var d := walk[i0];
    var s1 := ScanWalk(s, root, walk[..i0], valid, tags);
    WalkPrefixStep(s, root, walk, i0 + 1, valid, tags);
    LoadedOwns(s, p);
    WalkPrefixReady(s, root, walk, valid, tags, i0, p);
    DirCovers(s1, root, d, valid, tags, j0);
  }

  /** One more directory, without a file at path `p`, keeps that path
      covered. */
  lemma WalkCoverStep(s: ScannerState, root: Id, walk: seq<DirEntry>, k: nat, valid: seq<string>,
                      tags: map<string, Tags>, p: string, mtime: real)
    requires Consistent(s) && 0 < k <= |walk| && Avoids(walk[k - 1].path, walk[k - 1].files, valid, p)
    requires Covered(ScanWalk(s, root, walk[..k - 1], valid, tags).db, p, mtime)
    ensures Covered(ScanWalk(s, root, walk[..k], valid, tags).db, p, mtime)
  {
    var s1 := ScanWalk(s, root, walk[..k - 1], valid, tags);
    WalkPrefixStep(s, root, walk, k, valid, tags);
    WalkConsistent(s, root, walk[..k - 1], valid, tags);
    DirKeepsCovered(s1, root, walk[k - 1], valid, tags, p, mtime);
  }

  /** In a walk that yields each directory and file once, no other
      directory holds a file at the path of file `j0` of directory `i0`. */
  lemma OtherDirAvoids(walk: seq<DirEntry>, valid: seq<string>, i0: nat, j0: nat, i: nat)
    requires DistinctWalk(walk, valid) && IsEntry(walk, valid, i0, j0) && i < |walk| && i != i0
    ensures Avoids(walk[i].path, walk[i].files, valid, EntryPath(walk, i0, j0))
  {
    var d := walk[i];
    forall j | 0 <= j < |d.files| && Accepted(d.files[j].name, valid)
      ensures Join(d.path, d.files[j].name) != EntryPath(walk, i0, j0)
    {
      assert IsEntry(walk, valid, i, j);
    }
  }

  /** In such a walk, the directories before `i0` are other directories
      without a file at that path, and the other files of directory `i0`
      have other paths. */
  lemma EarlierDirsAvoid(walk: seq<DirEntry>, valid: seq<string>, i0: nat, j0: nat)
    requires DistinctWalk(walk, valid) && IsEntry(walk, valid, i0, j0)
    ensures forall i, j :: 0 <= i < i0 && IsEntry(walk, valid, i, j) ==> EntryPath(walk, i, j) != EntryPath(walk, i0, j0)
    ensures forall i :: 0 <= i < i0 ==> walk[i].path != walk[i0].path
    ensures forall j :: 0 <= j < |walk[i0].files| && j != j0 && Accepted(walk[i0].files[j].name, valid) ==>
              Join(walk[i0].path, walk[i0].files[j].name) != EntryPath(walk, i0, j0)
  {
    var d := walk[i0];
    forall j | 0 <= j < |d.files| && j != j0 && Accepted(d.files[j].name, valid)
      ensures Join(d.path, d.files[j].name) != EntryPath(walk, i0, j0)
    {
      assert IsEntry(walk, valid, i0, j);
    }
  }

  /** After the first `k` directories of a walk that yields each directory
      and file once and passes over none, an accepted file among them whose
      tags can be read has a stored track, and every track with its path is
      at least as recent as the file. */
  lemma {:induction false} WalkCovers(s: ScannerState, root: Id, walk: seq<DirEntry>, k: nat,
                                      valid: seq<string>, tags: map<string, Tags>, i0: nat, j0: nat)
    requires Loaded(s) && UniquePaths(s.db) && k <= |walk|
    requires DistinctWalk(walk, valid) && NotPassedOver(s, walk)
    requires i0 < k && IsEntry(walk, valid, i0, j0) && EntryPath(walk, i0, j0) in tags
    ensures Covered(ScanWalk(s, root, walk[..k], valid, tags).db, EntryPath(walk, i0, j0), walk[i0].files[j0].mtime)
    decreases k
  {
    if k == i0 + 1 {
      EarlierDirsAvoid(walk, valid, i0, j0);
      WalkCoverAt(s, root, walk, valid, tags, i0, j0);
    } else {
      WalkCovers(s, root, walk, k - 1, valid, tags, i0, j0);
      OtherDirAvoids(walk, valid, i0, j0, k - 1);
      WalkCoverStep(s, root, walk, k, valid, tags, EntryPath(walk, i0, j0), walk[i0].files[j0].mtime);
    }
  }

  /** After a first scan by a scanner made from the catalog, over a walk
      that yields each directory and file once and passes over none, every
      accepted file whose tags can be read has a stored track, and every
      track with its path is at least as recent as the file. */
  lemma FirstScanCovers(s: ScannerState, root: Id, walk: seq<DirEntry>, filetypes: string, tags: map<string, Tags>, finished: real)
    requires Loaded(s) && UniquePaths(s.db) && root in s.db.folders
    requires DistinctWalk(walk, FileTypes(filetypes)) && NotPassedOver(s, walk)
    ensures var db := Scan(s, root, walk, filetypes, tags, finished).db;
            forall i, j :: IsEntry(walk, FileTypes(filetypes), i, j) && EntryPath(walk, i, j) in tags ==>
              Covered(db, EntryPath(walk, i, j), walk[i].files[j].mtime)
  {
    var valid := FileTypes(filetypes);
    assert walk[..|walk|] == walk;
    forall i, j | IsEntry(walk, valid, i, j) && EntryPath(walk, i, j) in tags
      ensures Covered(ScanWalk(s, root, walk, valid, tags).db, EntryPath(walk, i, j), walk[i].files[j].mtime)
    {
      WalkCovers(s, root, walk, |walk|, valid, tags, i, j);
    }
  }

  /** A scanner made from a catalog in which those files are covered finds
      every file of the walk quiet. */
  lemma LoadedQuiet(s: ScannerState, walk: seq<DirEntry>, valid: seq<string>, tags: map<string, Tags>)
    requires Loaded(s)
    requires forall i, j :: IsEntry(walk, valid, i, j) && EntryPath(walk, i, j) in tags ==>
               Covered(s.db, EntryPath(walk, i, j), walk[i].files[j].mtime)
    ensures QuietWalk(s, walk, valid, tags)
  {
    forall i | 0 <= i < |walk| ensures QuietFiles(s, walk[i].path, walk[i].files, valid, tags) {
      var d := walk[i];
      forall j | 0 <= j < |d.files| && Accepted(d.files[j].name, valid)
        ensures QuietFile(s, Join(d.path, d.files[j].name), d.files[j].mtime, tags)
      {
        var p := Join(d.path, d.files[j].name);
        if p in tags {
          assert IsEntry(walk, valid, i, j);
          var id :| id in s.db.tracks && s.db.tracks[id].path == p;
          assert p in s.trackIndex;
        }
      }
    }
  }

  /** Scanning the same tree again, with the same tags, by a scanner made
      from the catalog the first scan left, adds no artist, album or track:
      the catalog's artists, albums and set of tracks stay those the first
      scan left, and the new scanner's added counters stay as they started. */
  lemma RescanAddsNothing(s: ScannerState, root: Id, walk: seq<DirEntry>, filetypes: string, tags: map<string, Tags>,
                          finished: real, s2: ScannerState, finished2: real)
    requires Loaded(s) && UniquePaths(s.db) && root in s.db.folders
    requires DistinctWalk(walk, FileTypes(filetypes)) && NotPassedOver(s, walk)
    requires Loaded(s2) && s2.db == Scan(s, root, walk, filetypes, tags, finished).db
    ensures root in s2.db.folders
    ensures var r := Scan(s2, root, walk, filetypes, tags, finished2);
            && r.db.artists == s2.db.artists && r.db.albums == s2.db.albums
            && r.db.tracks.Keys == s2.db.tracks.Keys
            && r.counters.addedArtists == s2.counters.addedArtists
            && r.counters.addedAlbums == s2.counters.addedAlbums
            && r.counters.addedTracks == s2.counters.addedTracks
  {
    ScanPreserves(s, root, walk, filetypes, tags, finished);
    FirstScanCovers(s, root, walk, filetypes, tags, finished);
    LoadedQuiet(s2, walk, FileTypes(filetypes), tags);
    ScanQuiet(s2, root, walk, filetypes, tags, finished2);
  }
}
