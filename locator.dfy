/**
 * Finding the bundle root (MavenBundleAdaptor.locateAdaptorBundlePath,
 * isAdaptable, adaptorBundlePath): walk up from a path to the first
 * directory that holds a pom.xml, and accept it when that POM declares a
 * WebObjects packaging.
 */
module BundleLocator {
  import opened Wrappers
  import opened Files
  import opened Maven

  /** The packagings that make a project a bundle. */
  const BundlePackaging: set<string> := {"woapplication", "woframework"}

  /** `dir` holds a pom.xml (Files.exists of dir/pom.xml). */
  predicate HasPom(h: Host, dir: Path)
  {
    Exists(h.fs, dir + [PomName])
  }

  /** The pom.xml in `dir` reads and parses, and its packaging is a bundle packaging. */
  predicate IsBundlePom(h: Host, dir: Path)
  {
    var r := ReadPom(h, dir + [PomName]);
    r.Ok? && r.value.packaging in BundlePackaging
  }

  /**
   * The answer of the walk from `p`, level by level: fail on a path that is not
   * a directory, let the first pom.xml decide, go up otherwise, fail past the root.
   */
  function Located(h: Host, p: Path): Option<Path>
    decreases |p|
  {
    if !IsDirectory(h.fs, p) then None
    else if HasPom(h, p) then (if IsBundlePom(h, p) then Some(p) else None)
    else if p == [] then None
    else Located(h, p[..|p| - 1])
  }

  /**
   * `q` is `start` or an ancestor of it, is a directory holding a pom.xml, and
   * every level from `start` up to but excluding `q` is a directory without one:
   * `q` is where the walk up from `start` meets its first pom.xml.
   */
  ghost predicate NearestPom(h: Host, start: Path, q: Path)
  {
    && q <= start
    && IsDirectory(h.fs, q)
    && HasPom(h, q)
    && forall j | |q| < j <= |start| :: IsDirectory(h.fs, start[..j]) && !HasPom(h, start[..j])
  }

  /** There is at most one nearest pom.xml. */
  lemma NearestPomUnique(h: Host, start: Path, q1: Path, q2: Path)
    requires NearestPom(h, start, q1) && NearestPom(h, start, q2)
    ensures q1 == q2
  {
    assert q1 == start[..|q1|] && q2 == start[..|q2|];
  }

  /** The walk returns `q` exactly when `q` holds the nearest pom.xml and that POM is a bundle POM. */
  lemma {:induction false} LocatedIsNearestBundlePom(h: Host, p: Path, q: Path)
    ensures Located(h, p) == Some(q) <==> NearestPom(h, p, q) && IsBundlePom(h, q)
    decreases |p|
  {
    assert p[..|p|] == p;
    if IsDirectory(h.fs, p) && !HasPom(h, p) && p != [] {
      var up := p[..|p| - 1];
      LocatedIsNearestBundlePom(h, up, q);
      if NearestPom(h, p, q) {
        assert q != p;
        assert q <= up;
        forall j | |q| < j <= |up| ensures IsDirectory(h.fs, up[..j]) && !HasPom(h, up[..j]) {
          assert up[..j] == p[..j];
        }
      }
      if NearestPom(h, up, q) {
        forall j | |q| < j <= |p| ensures IsDirectory(h.fs, p[..j]) && !HasPom(h, p[..j]) {
          if j < |p| {
            assert up[..j] == p[..j];
          } else {
            assert p[..j] == p;
          }
        }
      }
    } else if NearestPom(h, p, q) {
      assert q == p[..|q|];
    }
  }

  /** What the walk's answer means, for a found root and for no root. */
  lemma LocatedCharacterized(h: Host, p: Path)
    ensures Located(h, p).Some? ==> NearestPom(h, p, Located(h, p).value) && IsBundlePom(h, Located(h, p).value)
    ensures Located(h, p).None? <==> forall q :: NearestPom(h, p, q) ==> !IsBundlePom(h, q)
  {
    if Located(h, p).Some? {
      LocatedIsNearestBundlePom(h, p, Located(h, p).value);
    }
    forall q | NearestPom(h, p, q) && IsBundlePom(h, q) ensures Located(h, p) == Some(q) {
      LocatedIsNearestBundlePom(h, p, q);
    }
  }

  /** No pom.xml at any level from `p` up to the root: not adaptable. */
  lemma {:induction false} NoPomAnywhereNotAdaptable(h: Host, p: Path)
    requires forall k | 0 <= k <= |p| :: !HasPom(h, p[..k])
    ensures Located(h, p) == None
    decreases |p|
  {
    assert p[..|p|] == p;
    if p != [] {
      var up := p[..|p| - 1];
      forall k | 0 <= k <= |up| ensures !HasPom(h, up[..k]) {
        assert up[..k] == p[..k];
      }
      NoPomAnywhereNotAdaptable(h, up);
    }
  }

  /**
   * The nearest pom.xml decides, whatever lies further up: when it is not a
   * bundle POM (other packaging, unreadable, malformed) the answer is none.
   */
  lemma NearestNonBundlePomNotAdaptable(h: Host, p: Path, q: Path)
    requires NearestPom(h, p, q) && !IsBundlePom(h, q)
    ensures Located(h, p) == None
  {
    LocatedCharacterized(h, p);
    if Located(h, p).Some? {
      NearestPomUnique(h, p, q, Located(h, p).value);
    }
  }

  /** locateAdaptorBundlePath: the loop that moves from a path to its parent. */
  method LocateAdaptorBundlePath(h: Host, bundlePath: Path) returns (r: Option<Path>)
    ensures r == Located(h, bundlePath)
    ensures r.Some? ==> NearestPom(h, bundlePath, r.value) && IsBundlePom(h, r.value)
    ensures r.None? <==> forall q :: NearestPom(h, bundlePath, q) ==> !IsBundlePom(h, q)
  {
    LocatedCharacterized(h, bundlePath);
    var currentPath: Option<Path> := Some(bundlePath);
    while currentPath.Some? && IsDirectory(h.fs, currentPath.value)
      invariant currentPath.Some? ==> Located(h, currentPath.value) == Located(h, bundlePath)
      invariant currentPath.None? ==> Located(h, bundlePath) == None
      decreases if currentPath.Some? then |currentPath.value| + 1 else 0
    {
      var pom := currentPath.value + [PomName];
      if Exists(h.fs, pom) {
        match ReadPom(h, pom)
        case Ok(model) =>
          return if model.packaging in BundlePackaging then Some(currentPath.value) else None;
        case Err(_) =>
          return None;
      }
      currentPath := Parent(currentPath.value);
    }
    return None;
  }

  /** isAdaptable: the walk finds a bundle root. */
  method IsAdaptable(h: Host, bundlePath: Path) returns (b: bool)
    ensures b <==> Located(h, bundlePath).Some?
    ensures b <==> exists q :: NearestPom(h, bundlePath, q) && IsBundlePom(h, q)
  {
    var located := LocateAdaptorBundlePath(h, bundlePath);
    b := located.Some?;
  }

  /** adaptorBundlePath: the root the walk finds; Optional.get fails when there is none. */
  method AdaptorBundlePath(h: Host, bundlePath: Path) returns (p: Path)
    requires Located(h, bundlePath).Some?
    ensures Located(h, bundlePath) == Some(p)
    ensures p <= bundlePath && IsDirectory(h.fs, p) && IsBundlePom(h, p)
    ensures NearestPom(h, bundlePath, p)
  {
    var located := LocateAdaptorBundlePath(h, bundlePath);
    p := located.value;
  }
}
