/**
 * An abstract filesystem for the adaptor: absolute paths as sequences of
 * segments, a map from canonical paths to entries, and the java.nio operations
 * the adaptor calls (getParent, resolve, resolveSibling, toString,
 * Files.exists / isDirectory / isRegularFile / isReadable, Files.walk).
 */
module Files {
  import opened Wrappers
  import opened Strings

  /** One name of a path, as java.nio splits a path string at '/': never empty, never holding '/'. */
  type Segment = s: string | s != "" && '/' !in s witness "_"

  /** An absolute path as the sequence of its segments; the root "/" is []. */
  type Path = seq<Segment>

  datatype Entry = Directory | File(content: string, readable: bool)

  /**
   * The filesystem: the entry stored under each key. Lookups go through
   * Canonical, so a key that is not its own canonical path (one holding "." or
   * "..", or lying below a missing directory or a file) is never reached.
   */
  type FileSystem = map<Path, Entry>

  /** A path string taken from a POM, already split: absolute ("/x/y") or relative ("../pom.xml"). */
  datatype PathRef = PathRef(absolute: bool, segments: Path)

  /** What Files.walk reports: a path it reached and the entry found there. */
  datatype Visit = Visit(path: Path, entry: Entry)

  /** Path.getParent: the root has none. */
  function Parent(p: Path): (r: Option<Path>)
    ensures r.None? <==> p == []
    ensures r.Some? ==> r.value < p && |r.value| == |p| - 1
  {
    if p == [] then None else Some(p[..|p| - 1])
  }

  /** Path.resolve: an absolute reference replaces the base, a relative one is appended to it. */
  function Resolve(base: Path, r: PathRef): (p: Path)
    ensures !r.absolute ==> base <= p && p[|base|..] == r.segments
    ensures r.absolute ==> p == r.segments
  {
    if r.absolute then r.segments else base + r.segments
  }

  /**
   * Path.resolveSibling: the reference resolved against the parent of `p`.
   * The root has no parent; a relative reference made from it is read from
   * the root.
   */
  function ResolveSibling(p: Path, r: PathRef): (s: Path)
    ensures p != [] ==> s == Resolve(p[..|p| - 1], r)
    ensures p == [] ==> s == Resolve([], r)
  {
    Resolve(if p == [] then [] else p[..|p| - 1], r)
  }

  /**
   * The canonical path the operating system reaches for `p`, segment by
   * segment: every prefix walked through must be an existing directory, "."
   * stays and ".." goes up (it stays at the root). None when some step fails.
   */
  function Canonical(fs: FileSystem, p: Path): Option<Path>
    decreases |p|
  {
    if p == [] then Some([])
    else match Canonical(fs, p[..|p| - 1])
      case None => None
      case Some(dir) =>
        if dir !in fs || !fs[dir].Directory? then None
        else if p[|p| - 1] == "." then Some(dir)
        else if p[|p| - 1] == ".." then Some(if dir == [] then [] else dir[..|dir| - 1])
        else Some(dir + [p[|p| - 1]])
  }

  /** The entry `p` names, if any. */
  function EntryAt(fs: FileSystem, p: Path): Option<Entry>
  {
    match Canonical(fs, p)
    case None => None
    case Some(c) => if c in fs then Some(fs[c]) else None
  }

  /** Files.exists */
  predicate Exists(fs: FileSystem, p: Path)
  {
    EntryAt(fs, p).Some?
  }

  /** Files.isDirectory */
  predicate IsDirectory(fs: FileSystem, p: Path)
  {
    EntryAt(fs, p) == Some(Directory)
  }

  /** Files.isRegularFile and Files.isReadable together. */
  predicate IsReadableFile(fs: FileSystem, p: Path)
  {
    EntryAt(fs, p).Some? && EntryAt(fs, p).value.File? && EntryAt(fs, p).value.readable
  }

  /**
   * Files.walk(start): None (an IOException) when `start` does not exist;
   * otherwise `start` itself and, below it, every entry the walk can reach
   * (one whose key is its own canonical path, so that each directory between
   * `start` and it exists), each reported under `start` as the walk spells it.
   */
  function Walk(fs: FileSystem, start: Path): (r: Option<set<Visit>>)
    ensures r.Some? <==> Exists(fs, start)
    ensures r.Some? ==> forall v | v in r.value :: start <= v.path
    ensures r.Some? ==> Visit(start, EntryAt(fs, start).value) in r.value
  {
    match Canonical(fs, start)
    case None => None
    case Some(c) =>
      if c !in fs then None
      else
        CanonicalIsFixed(fs, start);
        assert c <= c && start + c[|c|..] == start;
        Some(set k | k in ReachableKeys(fs) && c <= k :: Visit(start + k[|c|..], fs[k]))
  }

  /** A key the operating system reaches under its own name: it is its own canonical path. */
  predicate Reachable(fs: FileSystem, k: Path)
  {
    Canonical(fs, k) == Some(k)
  }

  /** The keys a walk can report. */
  function ReachableKeys(fs: FileSystem): (r: set<Path>)
    ensures forall k | k in r :: k in fs
  {
    set k | k in fs && Reachable(fs, k)
  }

  /** Every visit the walk reports names, when looked up, the entry it reports. */
  lemma WalkReportsEntries(fs: FileSystem, start: Path, v: Visit)
    requires Walk(fs, start).Some? && v in Walk(fs, start).value
    ensures EntryAt(fs, v.path) == Some(v.entry)
  {
    var c := Canonical(fs, start).value;
    var k :| k in ReachableKeys(fs) && c <= k && v == Visit(start + k[|c|..], fs[k]);
    assert k == c + k[|c|..];
    CanonicalBelow(fs, start, c, k[|c|..]);
  }

  /** Conversely, every reachable entry at or below the start's canonical path is reported, under `start`. */
  lemma WalkReportsAll(fs: FileSystem, start: Path, rel: Path)
    requires Walk(fs, start).Some?
    requires var c := Canonical(fs, start).value; c + rel in fs && Reachable(fs, c + rel)
    ensures Visit(start + rel, fs[Canonical(fs, start).value + rel]) in Walk(fs, start).value
  {
    var c := Canonical(fs, start).value;
    assert (c + rel)[|c|..] == rel;
  }

  /** A canonical path is reached through its parent, an existing directory, by an ordinary segment. */
  lemma CanonicalStep(fs: FileSystem, q: Path)
    requires q != [] && Canonical(fs, q) == Some(q)
    ensures Canonical(fs, q[..|q| - 1]) == Some(q[..|q| - 1])
    ensures q[..|q| - 1] in fs && fs[q[..|q| - 1]].Directory?
    ensures q[|q| - 1] != "." && q[|q| - 1] != ".."
  {
    var dir := Canonical(fs, q[..|q| - 1]).value;
    CanonicalLength(fs, q[..|q| - 1]);
    assert dir + [q[|q| - 1]] == q;
    assert dir == (dir + [q[|q| - 1]])[..|q| - 1];
  }

  /** Canonical never lengthens a path. */
  lemma {:induction false} CanonicalLength(fs: FileSystem, p: Path)
    requires Canonical(fs, p).Some?
    ensures |Canonical(fs, p).value| <= |p|
    decreases |p|
  {
    if p != [] {
      CanonicalLength(fs, p[..|p| - 1]);
    }
  }

  /** Every prefix of a canonical path is canonical. */
  lemma {:induction false} CanonicalPrefix(fs: FileSystem, q: Path, k: nat)
    requires Canonical(fs, q) == Some(q) && k <= |q|
    ensures Canonical(fs, q[..k]) == Some(q[..k])
    decreases |q|
  {
    if k < |q| {
      var init := q[..|q| - 1];
      CanonicalStep(fs, q);
      CanonicalPrefix(fs, init, k);
      assert init[..k] == q[..k];
    } else {
      assert q[..k] == q;
    }
  }

  /** What Canonical reaches is its own canonical path. */
  lemma {:induction false} CanonicalIsFixed(fs: FileSystem, p: Path)
    requires Canonical(fs, p).Some?
    ensures Canonical(fs, Canonical(fs, p).value) == Canonical(fs, p)
    decreases |p|
  {
    if p != [] {
      var dir := Canonical(fs, p[..|p| - 1]).value;
      CanonicalIsFixed(fs, p[..|p| - 1]);
      var s := p[|p| - 1];
      if s == "." {
      } else if s == ".." {
        if dir != [] {
          CanonicalPrefix(fs, dir, |dir| - 1);
        }
      } else {
        assert (dir + [s])[..|dir|] == dir;
      }
    }
  }

  /**
   * Below a path that resolves to `c`, the segments `rel` of a canonical path
   * `c + rel` lead to that same canonical path.
   */
  lemma {:induction false} CanonicalBelow(fs: FileSystem, start: Path, c: Path, rel: Path)
    requires Canonical(fs, start) == Some(c) && Canonical(fs, c + rel) == Some(c + rel)
    ensures Canonical(fs, start + rel) == Some(c + rel)
    decreases |rel|
  {
    if rel == [] {
      assert start + rel == start && c + rel == c;
    } else {
      var init := rel[..|rel| - 1];
      CanonicalStep(fs, c + rel);
      assert (c + rel)[..|c + rel| - 1] == c + init;
      CanonicalBelow(fs, start, c, init);
      assert (start + rel)[..|start + rel| - 1] == start + init;
      assert (start + rel)[|start + rel| - 1] == rel[|rel| - 1] == (c + rel)[|c + rel| - 1];
      assert c + init + [rel[|rel| - 1]] == c + rel;
    }
  }

  /** Whatever lies inside `p` can exist only if `p` is a directory, and then `p` can be walked. */
  lemma ChildInDirectory(fs: FileSystem, p: Path, s: Segment)
    requires Exists(fs, p + [s])
    ensures IsDirectory(fs, p) && Walk(fs, p).Some?
  {
  }

  /** Each segment preceded by '/'. */
  function Slashed(p: Path): string
  {
    if p == [] then "" else Slashed(p[..|p| - 1]) + "/" + p[|p| - 1]
  }

  /** Path.toString of an absolute path: "/" for the root, "/a/b" otherwise. */
  function PathString(p: Path): (s: string)
    ensures |s| > 0 && s[0] == '/'
    ensures p == [] ==> s == "/"
  {
    if p == [] then "/" else SlashedStartsWithSlash(p); Slashed(p)
  }

  /** Below the root, Path.toString is "/" followed by the segments joined by "/". */
  lemma PathStringIsJoin(p: Path)
    requires p != []
    ensures PathString(p) == "/" + Join(p, '/')
  {
    SlashedIsJoin(p);
  }

  lemma SlashedStartsWithSlash(p: Path)
    requires p != []
    ensures |Slashed(p)| > 0 && Slashed(p)[0] == '/'
  {
    if |p| > 1 {
      SlashedStartsWithSlash(p[..|p| - 1]);
    }
  }

  lemma {:induction false} SlashedAppend(a: Path, b: Path)
    ensures Slashed(a + b) == Slashed(a) + Slashed(b)
    decreases |b|
  {
    if b == [] {
      assert a + b == a;
    } else {
      var init := b[..|b| - 1];
      assert (a + b)[..|a + b| - 1] == a + init;
      SlashedAppend(a, init);
    }
  }

  lemma {:induction false} SlashedIsJoin(p: Path)
    requires p != []
    ensures Slashed(p) == "/" + Join(p, '/')
  {
    if |p| == 1 {
      assert p[..0] == [];
    } else {
      SlashedIsJoin(p[..|p| - 1]);
    }
  }
}
