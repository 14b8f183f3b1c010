/**
 * The compiled classes of a bundle (MavenBundleAdaptor.classNamesForFileSystem):
 * every regular file under target/classes whose name ends in ".class",
 * turned into a dotted class name.
 */
module ClassNames {
  import opened Wrappers
  import opened Strings
  import opened Files
  import opened Maven

  /** fsBundlePath.resolve("target/classes/"), relative to the bundle root. */
  const ClassesDir: Path := ["target", "classes"]
  const ClassSuffix := ".class"

  /** The path string of a path below `base` is `base`'s path string, a '/', and the remaining segments joined by '/'. */
  lemma PathStringExtends(base: Path, file: Path)
    requires base != [] && base < file
    ensures var rel := file[|base|..];
      PathString(file) == PathString(base) + "/" + Join(rel, '/')
  {
    var rel := file[|base|..];
    assert file == base + rel;
    SlashedAppend(base, rel);
    SlashedIsJoin(rel);
  }

  /**
   * The class name of one walked file, as MavenBundleAdaptor computes it: the path
   * string with the walk root's string and one separator cut from the front,
   * ".class" cut from the end, and every '/' turned into '.'.
   */
  function ClassNameOf(walkPath: Path, file: Path): (name: string)
    requires walkPath != [] && walkPath < file
    requires EndsWith(file[|file| - 1], ClassSuffix)
    ensures '/' !in name
    ensures |name| == |PathString(file)| - |PathString(walkPath)| - 1 - |ClassSuffix|
  {
    var path := PathString(file);
    var walk := PathString(walkPath);
    var rel := file[|walkPath|..];
    PathStringExtends(walkPath, file);
    JoinSplitsAtLast(rel, '/');
    Replace(path[|walk| + 1..|path| - |ClassSuffix|], '/', '.')
  }

  /** A join splits at its last string: what precedes it (JoinPrefix), then the last string itself. */
  lemma JoinSplitsAtLast(xs: seq<string>, sep: char)
    requires xs != []
    ensures |Join(xs, sep)| >= |xs[|xs| - 1]|
    ensures Join(xs, sep) == JoinPrefix(xs, sep) + xs[|xs| - 1]
  {
  }

  /** What comes before the last string in a join: the others, each followed by the separator. */
  function JoinPrefix(xs: seq<string>, sep: char): string
    requires xs != []
  {
    if |xs| == 1 then "" else Join(xs[..|xs| - 1], sep) + [sep]
  }

  /**
   * The reference form of a class name for a file at `rel` below the walk
   * root: the directory names joined with '.', then '.', then the file name
   * without ".class" (just the latter for a file directly in the root).
   */
  function QualifiedName(rel: Path): string
    requires rel != [] && EndsWith(rel[|rel| - 1], ClassSuffix)
  {
    var file := rel[|rel| - 1];
    var simpleName := file[..|file| - |ClassSuffix|];
    if |rel| == 1 then simpleName else Join(rel[..|rel| - 1], '.') + "." + simpleName
  }

  /** The part of the path string that the two substring cuts keep. */
  lemma ClassNameSubstring(walkPath: Path, file: Path)
    requires walkPath != [] && walkPath < file
    requires EndsWith(file[|file| - 1], ClassSuffix)
    ensures var rel, path := file[|walkPath|..], PathString(file);
      var last := rel[|rel| - 1];
      && |PathString(walkPath)| + 1 <= |path| - |ClassSuffix|
      && path[|PathString(walkPath)| + 1..|path| - |ClassSuffix|] == JoinPrefix(rel, '/') + last[..|last| - |ClassSuffix|]
  {
    var rel := file[|walkPath|..];
    var last := rel[|rel| - 1];
    var path, walk := PathString(file), PathString(walkPath);
    PathStringExtends(walkPath, file);
    JoinSplitsAtLast(rel, '/');
    var prefix := JoinPrefix(rel, '/');
    assert path == walk + "/" + prefix + last;
    assert path[|walk| + 1..|path| - |ClassSuffix|] == prefix + last[..|last| - |ClassSuffix|];
  }

  /** Turning the separators of the directory part into dots. */
  lemma ReplaceJoinPrefix(xs: Path)
    requires xs != []
    ensures Replace(JoinPrefix(xs, '/'), '/', '.') == JoinPrefix(xs, '.')
  {
    if |xs| > 1 {
      var dirs := xs[..|xs| - 1];
      ReplaceAppend(Join(dirs, '/'), "/", '/', '.');
      ReplaceJoin(dirs, '/', '.');
    }
  }

  /** The reference name is the dotted directory part followed by the simple name. */
  lemma QualifiedNameSplit(rel: Path)
    requires rel != [] && EndsWith(rel[|rel| - 1], ClassSuffix)
    ensures var last := rel[|rel| - 1];
      QualifiedName(rel) == JoinPrefix(rel, '.') + last[..|last| - |ClassSuffix|]
  {
  }

  /** The string surgery of classNamesForFileSystem yields the package-qualified name of the file. */
  lemma ClassNameIsQualifiedName(walkPath: Path, file: Path)
    requires walkPath != [] && walkPath < file
    requires EndsWith(file[|file| - 1], ClassSuffix)
    ensures ClassNameOf(walkPath, file) == QualifiedName(file[|walkPath|..])
  {
    var rel := file[|walkPath|..];
    var last := rel[|rel| - 1];
    var simpleName := last[..|last| - |ClassSuffix|];
    var path := PathString(file);
    ClassNameSubstring(walkPath, file);
    var cut := path[|PathString(walkPath)| + 1..|path| - |ClassSuffix|];
    assert ClassNameOf(walkPath, file) == Replace(cut, '/', '.');
    assert cut == JoinPrefix(rel, '/') + simpleName;
    ReplaceAppend(JoinPrefix(rel, '/'), simpleName, '/', '.');
    ReplaceAbsent(simpleName, '/', '.');
    ReplaceJoinPrefix(rel);
    QualifiedNameSplit(rel);
  }

  /** A walked file MavenBundleAdaptor names: a regular file whose file name ends in ".class". */
  predicate IsClassFile(v: Visit)
  {
    v.entry.File? && v.path != [] && EndsWith(v.path[|v.path| - 1], ClassSuffix)
  }

  /** A class file found by walking target/classes lies strictly below it ("classes" does not end in ".class"). */
  lemma ClassFileBelowWalkRoot(walkPath: Path, v: Visit)
    requires walkPath != [] && walkPath[|walkPath| - 1] == "classes"
    requires walkPath <= v.path && IsClassFile(v)
    ensures walkPath < v.path
  {
    assert !EndsWith("classes", ClassSuffix);
  }

  /**
   * classNamesForFileSystem as a set (the stream's order is that of Files.walk,
   * which MavenBundleAdaptor leaves unspecified): an IOException when target/classes
   * cannot be walked, otherwise the name of every class file found.
   */
  function ClassNamesForFileSystem(h: Host, root: Path): (r: Result<set<string>, Error>)
    ensures r.Err? <==> !Exists(h.fs, root + ClassesDir)
    ensures r.Err? ==> r.error == IOFailure
    ensures r.Ok? ==> forall name | name in r.value :: '/' !in name
  {
    var walkPath := root + ClassesDir;
    match Walk(h.fs, walkPath)
    case None => Err(IOFailure)
    case Some(walk) => Ok(ClassNamesOf(walkPath, walk))
  }

  /** The names of the class files among what a walk of target/classes reports. */
  function ClassNamesOf(walkPath: Path, walk: set<Visit>): (r: set<string>)
    requires walkPath != [] && walkPath[|walkPath| - 1] == "classes"
    requires forall v | v in walk :: walkPath <= v.path
    ensures forall name | name in r :: '/' !in name
  {
    set v | v in walk && IsClassFile(v) :: ClassFileBelowWalkRoot(walkPath, v); ClassNameOf(walkPath, v.path)
  }

  /** Every name among a walk's class names is the qualified name of one of its class files. */
  lemma NameOfWalkedClassFile(walkPath: Path, walk: set<Visit>, name: string)
    requires walkPath != [] && walkPath[|walkPath| - 1] == "classes"
    requires forall v | v in walk :: walkPath <= v.path
    requires name in ClassNamesOf(walkPath, walk)
    ensures exists v | v in walk && IsClassFile(v) :: walkPath < v.path && name == QualifiedName(v.path[|walkPath|..])
  {
    var v :| v in walk && IsClassFile(v) && name == ClassNameOf(walkPath, v.path);
    ClassFileBelowWalkRoot(walkPath, v);
    ClassNameIsQualifiedName(walkPath, v.path);
  }

  /**
   * Every class file below target/classes is named, by its package-qualified
   * name, as long as its path string less the walk root's, one separator and
   * ".class".
   */
  lemma ClassFileIsNamed(h: Host, root: Path, v: Visit)
    requires Exists(h.fs, root + ClassesDir)
    requires v in Walk(h.fs, root + ClassesDir).value && IsClassFile(v)
    ensures root + ClassesDir < v.path
    ensures QualifiedName(v.path[|root + ClassesDir|..]) in ClassNamesForFileSystem(h, root).value
    ensures |QualifiedName(v.path[|root + ClassesDir|..])|
         == |PathString(v.path)| - |PathString(root + ClassesDir)| - 1 - |ClassSuffix|
  {
    var walkPath := root + ClassesDir;
    ClassFileBelowWalkRoot(walkPath, v);
    ClassNameIsQualifiedName(walkPath, v.path);
    assert ClassNameOf(walkPath, v.path) in ClassNamesForFileSystem(h, root).value;
  }

  /** Every name is that of some class file below target/classes. */
  lemma NameIsOfClassFile(h: Host, root: Path, name: string)
    requires Exists(h.fs, root + ClassesDir)
    requires name in ClassNamesForFileSystem(h, root).value
    ensures exists v | v in Walk(h.fs, root + ClassesDir).value && IsClassFile(v) ::
      root + ClassesDir < v.path && name == QualifiedName(v.path[|root + ClassesDir|..])
  {
    NameOfWalkedClassFile(root + ClassesDir, Walk(h.fs, root + ClassesDir).value, name);
  }
}
