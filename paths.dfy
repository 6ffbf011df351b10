/**
 * POSIX `os.path` operations used by the scanner and the cover-art cache:
 * `basename`, `dirname`, `join`.
 */
module Paths {

  predicate NoSlash(s: string) {
    forall i :: 0 <= i < |s| ==> s[i] != '/'
  }

  /** One past the index of the last '/' in `p` (0 when there is none):
      `p.rfind('/') + 1`. */
  function AfterLastSlash(p: string): (k: nat)
    ensures k <= |p|
    ensures k > 0 ==> p[k - 1] == '/'
    ensures NoSlash(p[k..])
    decreases |p|
  {
    if p == [] then 0
    else if p[|p| - 1] == '/' then |p|
    else
      var k := AfterLastSlash(p[..|p| - 1]);
      assert p[k..] == p[..|p| - 1][k..] + [p[|p| - 1]];
      k
  }

  /** `s.rstrip('/')` */
  function RStripSlashes(s: string): (r: string)
    ensures r <= s
    decreases |s|
  {
    if s != [] && s[|s| - 1] == '/' then RStripSlashes(s[..|s| - 1]) else s
  }

  predicate AllSlashes(s: string) {
    forall i :: 0 <= i < |s| ==> s[i] == '/'
  }

  /** `os.path.basename(p)`: the text after the last slash. */
  function Basename(p: string): (r: string)
    ensures NoSlash(r) && |r| <= |p| && r == p[|p| - |r|..]
  {
    p[AfterLastSlash(p)..]
  }

  /** `os.path.dirname(p)`: the text up to the last slash, with trailing
      slashes removed unless it consists of slashes only. */
  function Dirname(p: string): string {
    var head := p[..AfterLastSlash(p)];
    if head != [] && !AllSlashes(head) then RStripSlashes(head) else head
  }

  /** `os.path.join(a, b)` for two components. */
  function Join(a: string, b: string): string {
    if b != [] && b[0] == '/' then b
    else if a == [] || a[|a| - 1] == '/' then a + b
    else a + "/" + b
  }

  /** The name of the directory two levels above a file:
      `os.path.basename(os.path.dirname(os.path.dirname(p)))`. */
  function GrandparentName(p: string): string {
    Basename(Dirname(Dirname(p)))
  }

  /** The last slash of `u + "/" + v` is the one just added when `v` has none. */
  lemma AfterLastSlashAppend(u: string, v: string)
    requires NoSlash(v)
    ensures AfterLastSlash(u + "/" + v) == |u| + 1
    decreases |v|
  {
    var p := u + "/" + v;
    if v != [] {
      assert p[..|p| - 1] == u + "/" + v[..|v| - 1];
      AfterLastSlashAppend(u, v[..|v| - 1]);
    }
  }

  /** Removing the last component of `u + "/" + v` gives back `u`, when `v`
      has no slash and `u` does not end in one. */
  lemma {:induction false} DirnameAppend(u: string, v: string)
    requires NoSlash(v) && u != [] && u[|u| - 1] != '/'
    ensures Dirname(u + "/" + v) == u
  {
    var p := u + "/" + v;
    AfterLastSlashAppend(u, v);
    var head := p[..|u| + 1];
    assert head == u + "/";
    assert !AllSlashes(head) by { assert head[|u| - 1] != '/'; }
    assert head[..|head| - 1] == u;
    assert RStripSlashes(head) == RStripSlashes(u);
  }

  /** For a file laid out as `.../artist/album/song`, the grandparent name is
      the artist folder: the assumption behind the album-artist fallback. */
  lemma {:induction false} GrandparentOfNested(d: string, artist: string, album: string, file: string)
    requires NoSlash(artist) && NoSlash(album) && NoSlash(file)
    requires artist != [] && album != []
    ensures GrandparentName(d + "/" + artist + "/" + album + "/" + file) == artist
  {
    var parent := d + "/" + artist + "/" + album;
    assert d + "/" + artist + "/" + album + "/" + file == parent + "/" + file;
    DirnameAppend(parent, file);
    DirnameAppend(d + "/" + artist, album);
    AfterLastSlashAppend(d, artist);
  }
}
