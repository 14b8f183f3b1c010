# A verified model of the Maven bundle adaptor

`MavenBundleAdaptor` lets a WebObjects-style bundle loader treat a Maven project as a bundle.
Given a path, it walks up to the nearest directory that holds a `pom.xml` and accepts that
directory as a bundle root when the POM's packaging is `woapplication` or `woframework`.
From an accepted root it builds the bundle's description dictionary, lists the classes
compiled under `target/classes` and collects the resource directories that the POM and
its parent POMs declare.

This project models that logic in Dafny over an abstract filesystem. It proves what each
operation returns, and under which conditions it fails.

- `wrappers.dfy` (`Wrappers`): `Option` and `Result`.
- `strings.dfy` (`Strings`): `endsWith`, `replace(char, char)` and joining, with their lemmas.
- `files.dfy` (`Files`): paths as sequences of segments, where the root is `[]`. The filesystem maps
  paths to entries, each a directory or a file with contents and a readable flag.
  Lookups resolve `.` and `..` one segment at a time, as the operating system does, so a stored
  key that is not its own canonical path is never reached. `Walk` is `Files.walk`: it reports
  only reachable entries, each under a path that looks up to that entry. `PathString` is
  `Path.toString`, and `Parent`, `Resolve` and `ResolveSibling` are the `java.nio` operations of
  the same names.
- `maven.dfy` (`Maven`): the parts of the POM model that are read, the three failure kinds,
  and the `Host`. The `Host` holds the filesystem and the two foreign parsers
  (`MavenXpp3Reader.read`, `Properties.load`); a parser is a function from file contents to its result.
- `locator.dfy` (`BundleLocator`): `locateAdaptorBundlePath` as the Java code's `while` loop,
  plus `isAdaptable` and `adaptorBundlePath`.
- `info.dfy` (`BundleInfo`): `bundleInfoFromFileSystem` filling a `map<Key, Value>` one key at a time.
- `classnames.dfy` (`ClassNames`): `classNamesForFileSystem` as a function.
- `resources.dfy` (`ResourcePaths`): `resourcePathsFromPom` as a recursive method that appends the
  parent's list to its own, and `resourcePathsForFileSystem`.

The Java code recurses forever on a cyclic chain of parent POMs. The resource methods
therefore take a ghost bound `n` and require `ChainEnds(h, pom, n)`: reading the POMs from
`pom` upward stops, with an error or at a POM without a parent, within `n` steps. Which
sufficient bound is passed does not matter: `AncestryIndependentOfBound` proves that every
one gives the same chain.

Three behaviours of `MavenBundleAdaptor` shape the model:
- The located root is the path as walked up from the start, not a canonical path.
- Every I/O failure is one error kind, `IOFailure`. A missing `target/classes` is one of them.
- `ShortVersionAsWritten` follows the code, which evaluates `getParent()` eagerly.
  `BundleInfoFromFileSystem` uses the corrected `ShortVersion` (see Findings and Left out).

## Model

| member | source | states |
|---|---|---|
| `Files.Parent` | src/main/java/er/bundles/adaptors/maven/MavenBundleAdaptor.java:120 | getParent is absent exactly at the root; otherwise it is one segment shorter and a proper prefix |
| `Files.Exists` | src/main/java/er/bundles/adaptors/maven/MavenBundleAdaptor.java:110 | Files.exists: the path, resolved segment by segment through existing directories, names a stored entry |
| `Files.IsDirectory` | src/main/java/er/bundles/adaptors/maven/MavenBundleAdaptor.java:108 | Files.isDirectory: the entry the path names is a directory |
| `Files.IsReadableFile` | src/main/java/er/bundles/adaptors/maven/MavenBundleAdaptor.java:42 | Files.isRegularFile and Files.isReadable: the entry the path names is a file and is readable |
| `Files.Walk` | src/main/java/er/bundles/adaptors/maven/MavenBundleAdaptor.java:72 | Files.walk fails exactly when its start does not exist; it reports the start itself, and every path it reports extends the start |
| `Strings.EndsWith` | src/main/java/er/bundles/adaptors/maven/MavenBundleAdaptor.java:88 | String.endsWith: the suffix is no longer than the string and equals its last characters |
| `Files.Resolve` | src/main/java/er/bundles/adaptors/maven/MavenBundleAdaptor.java:58 | Path.resolve: an absolute reference is the result itself; a relative one is appended, so the base is a prefix and the rest is the reference's segments |
| `Files.ResolveSibling` | src/main/java/er/bundles/adaptors/maven/MavenBundleAdaptor.java:146 | Path.resolveSibling: below the root, the reference resolved against the parent; at the root (which has no parent) it is resolved against the root itself |
| `Files.PathString` | src/main/java/er/bundles/adaptors/maven/MavenBundleAdaptor.java:88-89 | Path.toString: "/" at the root; every path's string starts with "/" |
| `Files.PathStringIsJoin` | src/main/java/er/bundles/adaptors/maven/MavenBundleAdaptor.java:88-89 | below the root, Path.toString is "/" followed by the segments joined by "/" |
| `Files.WalkReportsAll` | src/main/java/er/bundles/adaptors/maven/MavenBundleAdaptor.java:72 | every reachable entry at or below the start's canonical path is reported, under the start's own spelling |
| `Files.WalkReportsEntries` | src/main/java/er/bundles/adaptors/maven/MavenBundleAdaptor.java:72-73 | every path the walk reports, looked up again (as Files.isDirectory does), names exactly the entry reported with it |
| `Maven.ReadPom` | src/main/java/er/bundles/adaptors/maven/MavenBundleAdaptor.java:111-112 | reading a POM succeeds exactly on a readable regular file that parses, and yields the parsed model; a readable file that does not parse gives MalformedPom |
| `BundleLocator.HasPom` | src/main/java/er/bundles/adaptors/maven/MavenBundleAdaptor.java:109-110 | Files.exists(currentPath.resolve("pom.xml")): the directory holds an existing pom.xml |
| `BundleLocator.IsBundlePom` | src/main/java/er/bundles/adaptors/maven/MavenBundleAdaptor.java:111-113 | the directory's pom.xml reads and parses, and its packaging is woapplication or woframework |
| `BundleLocator.LocatedIsNearestBundlePom` | src/main/java/er/bundles/adaptors/maven/MavenBundleAdaptor.java:106-123 | the walk answers q exactly when q is the start or an ancestor of it, q holds the nearest pom.xml (every level between is a directory without one), and that POM parses with a bundle packaging |
| `BundleLocator.LocatedCharacterized` | src/main/java/er/bundles/adaptors/maven/MavenBundleAdaptor.java:106-123 | a found root is the nearest bundle POM's directory; no root is found exactly when no nearest pom.xml is a bundle POM |
| `BundleLocator.NearestPomUnique` | src/main/java/er/bundles/adaptors/maven/MavenBundleAdaptor.java:108-120 | the first pom.xml met on the way up is unique |
| `BundleLocator.NoPomAnywhereNotAdaptable` | src/main/java/er/bundles/adaptors/maven/MavenBundleAdaptor.java:107-122 | with no pom.xml at any level up to the root, the walk finds nothing |
| `BundleLocator.NearestNonBundlePomNotAdaptable` | src/main/java/er/bundles/adaptors/maven/MavenBundleAdaptor.java:110-118 | when the nearest pom.xml is unreadable, malformed or of another packaging, the walk finds nothing, whatever lies further up |
| `BundleLocator.LocateAdaptorBundlePath` | src/main/java/er/bundles/adaptors/maven/MavenBundleAdaptor.java:106-123 | the loop returns the walk's answer: a root holding the nearest pom.xml with a bundle packaging, or nothing exactly when the nearest pom.xml is not such a POM |
| `BundleLocator.IsAdaptable` | src/main/java/er/bundles/adaptors/maven/MavenBundleAdaptor.java:101-104 | true exactly when the locator finds a root, that is, when some nearest pom.xml is a bundle POM |
| `BundleLocator.AdaptorBundlePath` | src/main/java/er/bundles/adaptors/maven/MavenBundleAdaptor.java:33-36 | only defined for an adaptable path; returns the located root, an ancestor-or-self directory holding the nearest pom.xml, which is a bundle POM |
| `BundleInfo.PackageTypeName` | src/main/java/er/bundles/adaptors/maven/MavenBundleAdaptor.java:63 | CFBundlePackageType.name(): "APPL" for APPL and "FMWK" for FMWK |
| `BundleInfo.HasComponents` | src/main/java/er/bundles/adaptors/maven/MavenBundleAdaptor.java:73-74 | the stream filter and findAny: some walked directory's path string ends in ".wo" |
| `BundleInfo.BuildProperties` | src/main/java/er/bundles/adaptors/maven/MavenBundleAdaptor.java:41-50 | build.properties is used exactly when it is a readable regular file, and its loaded properties are returned |
| `BundleInfo.ShortVersionAsWritten` | src/main/java/er/bundles/adaptors/maven/MavenBundleAdaptor.java:65-66 | as written, the version fails exactly when the POM has no parent; otherwise it is the POM's own version, else the parent's |
| `BundleInfo.ShortVersion` | src/main/java/er/bundles/adaptors/maven/MavenBundleAdaptor.java:65-66 | the intended version: the POM's own if present, else the parent's; it fails exactly when neither exists |
| `BundleInfo.ShortVersionAsWrittenDiffers` | src/main/java/er/bundles/adaptors/maven/MavenBundleAdaptor.java:65-66 | the two differ exactly on a POM with its own version and no parent |
| `BundleInfo.StandalonePomVersion` | src/main/java/er/bundles/adaptors/maven/MavenBundleAdaptor.java:65-66 | a POM with version 1.2.3 and no parent fails as written but has version 1.2.3 as intended |
| `BundleInfo.PathStringEndsWithSuffix` | src/main/java/er/bundles/adaptors/maven/MavenBundleAdaptor.java:73 | a path string ends in ".wo" exactly when the path's last segment does; the root never does |
| `BundleInfo.HasComponentsByName` | src/main/java/er/bundles/adaptors/maven/MavenBundleAdaptor.java:72-75 | testing walked directories' path strings for ".wo" is the same as testing their own names |
| `BundleInfo.BuildPropertiesEntries` | src/main/java/er/bundles/adaptors/maven/MavenBundleAdaptor.java:41-55 | the principal class is entered iff build.properties gives one, the adaptor class iff given and non-empty, each with its property's value, and nothing else |
| `BundleInfo.WalkForComponents` | src/main/java/er/bundles/adaptors/maven/MavenBundleAdaptor.java:72-78 | once the root's pom.xml has been read, walking the root succeeds, and the flag is true iff some walked directory's name ends in ".wo" |
| `BundleInfo.BundleInfoFromFileSystem` | src/main/java/er/bundles/adaptors/maven/MavenBundleAdaptor.java:39-81 | fails exactly when the root POM cannot be read or parsed (with that error) or no version exists; otherwise each of the eight keys is present or absent as follows. The principal class is present iff build.properties gives one. The adaptor class is present iff given and non-empty. The other six keys are always present. The signature is "webo" and the manifest version "0". The package type is APPL iff the packaging is woapplication, else FMWK. The executable is the artifactId and the version falls back to the parent's. The components flag is true iff some directory the walk of the root reaches, the root included, has a name ending in ".wo" |
| `Strings.Replace` | src/main/java/er/bundles/adaptors/maven/MavenBundleAdaptor.java:90 | String.replace(char, char): same length, each occurrence of the old character becomes the new one, every other character is unchanged, and (for distinct characters) none of the old is left |
| `ClassNames.ClassNamesOf` | src/main/java/er/bundles/adaptors/maven/MavenBundleAdaptor.java:87-90 | the filter/map pipeline over a walk of target/classes: the names of its regular ".class" files, none holding '/' |
| `ClassNames.NameOfWalkedClassFile` | src/main/java/er/bundles/adaptors/maven/MavenBundleAdaptor.java:87-90 | every name the pipeline yields is the qualified name of some walked class file strictly below target/classes |
| `ClassNames.ClassNameOf` | src/main/java/er/bundles/adaptors/maven/MavenBundleAdaptor.java:89-90 | a computed class name holds no '/' and is as long as the file's path string less the walk root's string, one separator and ".class" |
| `ClassNames.ClassNameIsQualifiedName` | src/main/java/er/bundles/adaptors/maven/MavenBundleAdaptor.java:85-90 | the prefix/suffix surgery on path strings yields the file's directories below target/classes joined by ".", then ".", then the file name without ".class" |
| `ClassNames.IsClassFile` | src/main/java/er/bundles/adaptors/maven/MavenBundleAdaptor.java:87-88 | the two filters: a walked regular file whose file name ends in ".class" |
| `ClassNames.ClassFileBelowWalkRoot` | src/main/java/er/bundles/adaptors/maven/MavenBundleAdaptor.java:85-88 | a walked regular file whose name ends in ".class" lies strictly below target/classes, so the substring bounds hold |
| `ClassNames.ClassNamesForFileSystem` | src/main/java/er/bundles/adaptors/maven/MavenBundleAdaptor.java:84-94 | fails (IOFailure) exactly when target/classes does not exist; no name holds '/' |
| `ClassNames.ClassFileIsNamed` | src/main/java/er/bundles/adaptors/maven/MavenBundleAdaptor.java:87-90 | every regular ".class" file below target/classes contributes its qualified name, of the length above |
| `ClassNames.NameIsOfClassFile` | src/main/java/er/bundles/adaptors/maven/MavenBundleAdaptor.java:87-90 | every listed name is the qualified name of some regular ".class" file below target/classes |
| `ResourcePaths.OwnResources` | src/main/java/er/bundles/adaptors/maven/MavenBundleAdaptor.java:142-144 | without a build element a POM contributes nothing; with one, its resource directories in declaration order |
| `ResourcePaths.ParentPom` | src/main/java/er/bundles/adaptors/maven/MavenBundleAdaptor.java:145-146 | getRelativePath then pom.resolveSibling: the parent reference resolved against the POM's own directory |
| `ResourcePaths.AncestryIsParentChain` | src/main/java/er/bundles/adaptors/maven/MavenBundleAdaptor.java:139-147 | the chain starts at the given POM, each link's model is what that POM parses to, each next link is resolveSibling of the previous one's parent relativePath, and the last has no parent |
| `ResourcePaths.AncestryIndependentOfBound` | src/main/java/er/bundles/adaptors/maven/MavenBundleAdaptor.java:139-147 | any sufficient bound on the chain's length gives the same chain |
| `ResourcePaths.InheritedLength` | src/main/java/er/bundles/adaptors/maven/MavenBundleAdaptor.java:144-147 | no deduplication: the inherited list is as long as the sum of the resource counts along the chain |
| `ResourcePaths.InheritedBlocks` | src/main/java/er/bundles/adaptors/maven/MavenBundleAdaptor.java:144-147 | each POM's directories appear unchanged and in order right after those of every POM below it in the chain |
| `ResourcePaths.ResourcePathsFromPom` | src/main/java/er/bundles/adaptors/maven/MavenBundleAdaptor.java:139-152 | fails, with the first error on the chain, exactly when some POM on it cannot be read; otherwise returns the chain's directories child first, and only its own when the POM has no parent |
| `ResourcePaths.ResourcePathsForFileSystem` | src/main/java/er/bundles/adaptors/maven/MavenBundleAdaptor.java:132-137 | fails exactly when the chain from root/pom.xml does; otherwise as many paths as declared directories, the i-th being the i-th directory resolved against the bundle root, inherited ones included |

## Findings

| source | as written | input that shows it | evidently intended | confidence | as-written member | corrected member |
|---|---|---|---|---|---|---|
| src/main/java/er/bundles/adaptors/maven/MavenBundleAdaptor.java:65 | `Optional.ofNullable(model.getVersion()).orElse(model.getParent().getVersion())` evaluates the argument of `orElse` before the call, so `getParent()` is dereferenced even when the POM declares its own version | a root pom.xml with `<version>1.2.3</version>` and no `<parent>`: `bundleInfoFromFileSystem` throws NullPointerException | the POM's own version, falling back to the parent's only when it has none (`orElseGet`) | high (Java's argument evaluation order); not executed | `BundleInfo.ShortVersionAsWritten` (`BundleInfo.StandalonePomVersion`, `BundleInfo.ShortVersionAsWrittenDiffers`) | `BundleInfo.ShortVersion` |

## Left out

- `BundleInfo.BundleInfoFromFileSystem`: it uses the corrected version fallback, so it succeeds on a POM that has its own version and no parent, where the Java code throws (see Findings).
- `ClassNames.ClassNamesForFileSystem`: the result is a set, not a lazy stream. The walk's order is unspecified, and two files that map to one name (`a/b.class` and `a.b.class`) give one entry, not two. `String.intern` is not modelled.
- `ResourcePaths.ResourcePathsFromPom`: a cyclic parent chain, on which the Java code overflows the stack, is excluded by its precondition `ChainEnds`.
- `ResourcePaths.ResourcePathsForFileSystem`: likewise, a cyclic parent chain from root/pom.xml, on which the Java code overflows the stack, is excluded by its precondition `ChainEnds`.
- `propertiesForFileSystem`: a stub that discards what it computes and returns empty properties.
- `fsBundlePath`: a plain wrapper around `FileSystem.getPath`.
- Parsing path strings into paths (`fs.getPath`, `Path.resolve` of a string, a POM's `relativePath` and resource `<directory>` text): start paths are given as segment sequences and POM path strings as already split `PathRef`s. Relative start paths and the working directory are not modelled.
- File contents, XML parsing and `Properties.load` are foreign calls. They are the `Host`'s functions. An I/O error while loading a readable `build.properties`, and an unreadable directory met during `Files.walk`, are not modelled.
- Symbolic links: the filesystem has none.
- The string values of the `NSBundleInfo` keys and `NSBundleInfo.forDictionary` belong to the host library. The output is the dictionary itself, keyed by an enumeration.
- `NSForwardException` wrapping: a failure is one of three `Error` values: I/O, malformed POM, and no version and no parent (as written in the Java: any POM without `<parent>`).
- Null `artifactId`, a null parent version and a null resource directory are not modelled: these fields are plain strings.
