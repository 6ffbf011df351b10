/**
 * The size and cache decision of the cover-art endpoint, taken once the
 * image has been found: which size to produce, where the cached copy
 * lives, and whether to save the image as it is, serve the cached copy,
 * or shrink and save it.
 */
module CoverArt {
  import opened Wrappers
  import opened Strings
  import opened Paths

  /** The size used when the request names none. */
  const DefaultSize := 1000

  datatype CoverError = InvalidSize

  datatype Action =
    | SaveUnresized   // the image fits: saved as it is, over any cached copy
    | ServeCached     // a copy of this size is already cached
    | ShrinkAndSave   // shrunk to fit a size x size box, then cached

  /** The outcome: what to do, the cache file it is served from, and whether
      the per-size cache directory had to be created first. */
  datatype Plan = Plan(action: Action, cachePath: string, sizeDir: string, makeDir: bool)

  /** The `size` request parameter ("" when absent). */
  function RequestedSize(sizeParam: string): Result<int, CoverError> {
    if sizeParam == "" then Success(DefaultSize)
    else match ParseInt(sizeParam)
      case None => Failure(InvalidSize)
      case Some(n) => Success(n)
  }

  /** `cache_dir/size`, the directory of one size. */
  function SizeDir(cacheDir: string, size: int): string {
    Join(cacheDir, IntToString(size))
  }

  /** The decision for an image of `width` x `height` pixels belonging to the
      folder `id`, given the set of paths that already exist on disk. */
  function Decide(sizeParam: string, cacheDir: string, id: string, width: int, height: int, existing: set<string>): Result<Plan, CoverError> {
    match RequestedSize(sizeParam)
    case Failure(e) => Failure(e)
    case Success(size) =>
      var dir := SizeDir(cacheDir, size);
      var path := Join(dir, id);
      var makeDir := dir !in existing;
      if size > width && size > height then Success(Plan(SaveUnresized, path, dir, makeDir))
      else if path in existing then Success(Plan(ServeCached, path, dir, makeDir))
      else Success(Plan(ShrinkAndSave, path, dir, makeDir))
  }

  /** The paths that exist once a plan has been carried out. */
  function AfterPlan(existing: set<string>, p: Plan): set<string> {
    existing + {p.sizeDir, p.cachePath}
  }

  /** Without a `size` parameter the cache file is `cache_dir/1000/id`;
      with one that is not an integer the request fails. */
  lemma {:induction false} SizeParameter(sizeParam: string, cacheDir: string, id: string, width: int, height: int, existing: set<string>)
    ensures sizeParam == "" ==>
              Decide(sizeParam, cacheDir, id, width, height, existing).Success?
              && Decide(sizeParam, cacheDir, id, width, height, existing).value.cachePath == Join(Join(cacheDir, "1000"), id)
    ensures sizeParam != "" && ParseInt(sizeParam).None? ==>
              Decide(sizeParam, cacheDir, id, width, height, existing) == Failure(InvalidSize)
  {
    assert NatToString(1000) == "1000" by {
      assert NatToString(100) == "100" by {
        assert NatToString(10) == "10" by { assert NatToString(1) == "1"; }
      }
    }
  }

  /** The cache path is `cache_dir/size/id` for the size asked, and the size
      directory is the one created when missing. */
  lemma CachePathOfSize(sizeParam: string, cacheDir: string, id: string, width: int, height: int, existing: set<string>)
    requires ParseInt(sizeParam).Some?
    ensures var d := Decide(sizeParam, cacheDir, id, width, height, existing);
            var n := ParseInt(sizeParam).value;
            d.Success? && d.value.cachePath == Join(Join(cacheDir, IntToString(n)), id)
            && d.value.sizeDir == Join(cacheDir, IntToString(n))
            && (d.value.makeDir <==> Join(cacheDir, IntToString(n)) !in existing)
  {
    RequestedParsed(sizeParam);
    var n := ParseInt(sizeParam).value;
    var dir := SizeDir(cacheDir, n);
    assert Decide(sizeParam, cacheDir, id, width, height, existing).value.sizeDir == dir;
  }

  /** A parameter that parses as an integer asks for that size. */
  lemma RequestedParsed(sizeParam: string)
    requires ParseInt(sizeParam).Some?
    ensures RequestedSize(sizeParam) == Success(ParseInt(sizeParam).value)
  {
    ParseIntEmpty();
    assert sizeParam != "";
  }

  /** An image is saved unshrunk exactly when the size exceeds both of its
      dimensions, whether or not a cached copy exists; otherwise a cached
      copy is served without shrinking, and only a missing one is made. */
  lemma ResizeDecision(sizeParam: string, cacheDir: string, id: string, width: int, height: int, existing: set<string>)
    requires RequestedSize(sizeParam).Success?
    ensures var size := RequestedSize(sizeParam).value;
            var d := Decide(sizeParam, cacheDir, id, width, height, existing).value;
            && (d.action == SaveUnresized <==> size > width && size > height)
            && (d.action == ServeCached <==> !(size > width && size > height) && d.cachePath in existing)
            && (d.action == ShrinkAndSave <==> !(size > width && size > height) && d.cachePath !in existing)
  {
  }

  /** Asking twice for the same image and size never shrinks it the second
      time, and serves the same cache file. */
  lemma {:induction false} SecondRequestNeverShrinks(sizeParam: string, cacheDir: string, id: string, width: int, height: int, existing: set<string>)
    requires Decide(sizeParam, cacheDir, id, width, height, existing).Success?
    ensures var first := Decide(sizeParam, cacheDir, id, width, height, existing).value;
            var second := Decide(sizeParam, cacheDir, id, width, height, AfterPlan(existing, first));
            second.Success? && second.value.action != ShrinkAndSave
            && second.value.cachePath == first.cachePath && !second.value.makeDir
  {
    var first := Decide(sizeParam, cacheDir, id, width, height, existing).value;
    var after := AfterPlan(existing, first);
    assert first.cachePath in after && first.sizeDir in after;
  }
}
