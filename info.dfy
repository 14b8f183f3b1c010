/**
 * The bundle description (MavenBundleAdaptor.bundleInfoFromFileSystem): the
 * key/value dictionary handed to NSBundleInfo.forDictionary, filled from
 * build.properties, the bundle root's POM and a walk over the bundle root.
 */
module BundleInfo {
  import opened Wrappers
  import opened Strings
  import opened Files
  import opened Maven

  /** CFBundlePackageType: application or framework. */
  datatype PackageType = APPL | FMWK

  /**
   * The NSBundleInfo keys the adaptor sets. Their string values belong to the
   * host library and are not part of this model.
   */
  datatype Key =
    | PrincipalClassKey
    | EOAdaptorClassNameKey
    | BundleSignatureKey
    | BundlePackageTypeKey
    | ExecutableKey
    | ShortVersionStringKey
    | HasWOComponentsKey
    | ManifestImplementationVersionKey

  /** A dictionary value: a string, or the Boolean of the components flag. */
  datatype Value = Text(text: string) | Flag(flag: bool)

  type Dictionary = map<Key, Value>

  const BuildPropertiesName: Segment := "build.properties"
  const ComponentSuffix := ".wo"

  function PackageTypeName(t: PackageType): string
  {
    match t
    case APPL => "APPL"
    case FMWK => "FMWK"
  }

  /**
   * The properties of root/build.properties when it exists, is a regular file
   * and is readable; None otherwise (its absence is not an error).
   */
  function BuildProperties(h: Host, root: Path): (r: Option<map<string, string>>)
    ensures r.Some? <==> IsReadableFile(h.fs, root + [BuildPropertiesName])
    ensures r.Some? ==> r.value == h.loadProperties(EntryAt(h.fs, root + [BuildPropertiesName]).value.content)
  {
    match EntryAt(h.fs, root + [BuildPropertiesName])
    case Some(File(content, readable)) => if readable then Some(h.loadProperties(content)) else None
    case _ => None
  }

  /**
   * The short version string as MavenBundleAdaptor computes it:
   * Optional.ofNullable(getVersion()).orElse(getParent().getVersion()). Java
   * evaluates the argument of orElse before the call, so getParent() is
   * dereferenced even when the POM declares its own version.
   */
  function ShortVersionAsWritten(m: Model): (r: Result<string, Error>)
    ensures r.Err? <==> m.parent.None?
    ensures r.Ok? ==> r.value == (if m.version.Some? then m.version.value else m.parent.value.version)
  {
    match m.parent
    case None => Err(MissingVersion)
    case Some(p) => Ok(match m.version case Some(v) => v case None => p.version)
  }

  /** The short version string as intended: the POM's own version, else its parent's. */
  function ShortVersion(m: Model): (r: Result<string, Error>)
    ensures r.Err? <==> m.version.None? && m.parent.None?
    ensures m.version.Some? ==> r == Ok(m.version.value)
    ensures m.version.None? && m.parent.Some? ==> r == Ok(m.parent.value.version)
  {
    match m.version
    case Some(v) => Ok(v)
    case None =>
      match m.parent
      case Some(p) => Ok(p.version)
      case None => Err(MissingVersion)
  }

  /** The two agree except on a POM that has its own version and no parent, which the Java code rejects. */
  lemma ShortVersionAsWrittenDiffers(m: Model)
    ensures ShortVersionAsWritten(m) != ShortVersion(m) <==> m.version.Some? && m.parent.None?
  {
  }

  /** A standalone POM with its own version: MavenBundleAdaptor's bundle info fails on it. */
  lemma StandalonePomVersion()
    ensures var m := Model("woapplication", "demo", Some("1.2.3"), None, None);
      ShortVersionAsWritten(m) == Err(MissingVersion) && ShortVersion(m) == Ok("1.2.3")
  {
  }

  /** Some walked directory's path string ends in ".wo", as the Java code tests it. */
  predicate HasComponents(walk: set<Visit>)
  {
    exists v | v in walk :: v.entry.Directory? && EndsWith(PathString(v.path), ComponentSuffix)
  }

  /** Some walked directory's own name ends in ".wo". */
  predicate HasComponentDirectory(walk: set<Visit>)
  {
    exists v | v in walk :: v.entry.Directory? && v.path != [] && EndsWith(v.path[|v.path| - 1], ComponentSuffix)
  }

  /** A path string ends in ".wo" exactly when its last segment does; the root "/" never does. */
  lemma PathStringEndsWithSuffix(p: Path)
    ensures EndsWith(PathString(p), ComponentSuffix) <==> p != [] && EndsWith(p[|p| - 1], ComponentSuffix)
  {
    if p != [] {
      EndsWithAfterSeparator(Slashed(p[..|p| - 1]), '/', p[|p| - 1], ComponentSuffix);
    }
  }

  /** Testing whole path strings is testing directory names. */
  lemma HasComponentsByName(walk: set<Visit>)
    ensures HasComponents(walk) <==> HasComponentDirectory(walk)
  {
    forall v | v in walk ensures EndsWith(PathString(v.path), ComponentSuffix) <==> v.path != [] && EndsWith(v.path[|v.path| - 1], ComponentSuffix) {
      PathStringEndsWithSuffix(v.path);
    }
  }

  /**
   * The entries build.properties contributes to a fresh dictionary: the
   * principal class when the property is set, the EOF adaptor class name when
   * it is set and not empty; none when the file cannot be read.
   */
  method BuildPropertiesEntries(h: Host, root: Path) returns (dictionary: Dictionary)
    ensures var props := BuildProperties(h, root);
      && dictionary.Keys == (if props.Some? && "principalClass" in props.value then {PrincipalClassKey} else {})
                            + (if props.Some? && "eoAdaptorClassName" in props.value && props.value["eoAdaptorClassName"] != ""
                               then {EOAdaptorClassNameKey} else {})
      && (PrincipalClassKey in dictionary ==> dictionary[PrincipalClassKey] == Text(props.value["principalClass"]))
      && (EOAdaptorClassNameKey in dictionary ==> dictionary[EOAdaptorClassNameKey] == Text(props.value["eoAdaptorClassName"]))
  {
    dictionary := map[];
    var buildProps := BuildProperties(h, root);
    if buildProps.Some? && "principalClass" in buildProps.value {
      dictionary := dictionary[PrincipalClassKey := Text(buildProps.value["principalClass"])];
    }
    if buildProps.Some? && "eoAdaptorClassName" in buildProps.value && buildProps.value["eoAdaptorClassName"] != "" {
      dictionary := dictionary[EOAdaptorClassNameKey := Text(buildProps.value["eoAdaptorClassName"])];
    }
  }

  /**
   * The walk of the root in bundleInfoFromFileSystem: a pom.xml read from
   * inside the root shows that the root exists, so Files.walk succeeds, and
   * the flag says whether some walked directory's path string ends in ".wo",
   * which is whether some walked directory's name does.
   */
  method WalkForComponents(h: Host, root: Path) returns (hasComponents: bool)
    requires ReadPom(h, root + [PomName]).Ok?
    ensures Walk(h.fs, root).Some?
    ensures hasComponents == HasComponentDirectory(Walk(h.fs, root).value)
  {
    ChildInDirectory(h.fs, root, PomName);
    var walk := Walk(h.fs, root).value;
    hasComponents := HasComponents(walk);
    HasComponentsByName(walk);
  }

  /**
   * bundleInfoFromFileSystem: fill the dictionary key by key. It fails when the
   * root's pom.xml cannot be read or parsed, or no version can be found; on
   * success each of the eight keys is present or absent, and holds, as stated below.
   */
  method BundleInfoFromFileSystem(h: Host, root: Path) returns (r: Result<Dictionary, Error>)
    ensures var pom := ReadPom(h, root + [PomName]);
      r.Err? <==> pom.Err? || ShortVersion(pom.value).Err?
    ensures ReadPom(h, root + [PomName]).Err? ==> r == Err(ReadPom(h, root + [PomName]).error)
    ensures ReadPom(h, root + [PomName]).Ok? && ShortVersion(ReadPom(h, root + [PomName]).value).Err? ==> r == Err(MissingVersion)
    ensures r.Ok? ==>
      var m := ReadPom(h, root + [PomName]).value;
      var props := BuildProperties(h, root);
      && BundleSignatureKey in r.value && BundlePackageTypeKey in r.value && ExecutableKey in r.value
      && ShortVersionStringKey in r.value && HasWOComponentsKey in r.value && ManifestImplementationVersionKey in r.value
      && (PrincipalClassKey in r.value <==> props.Some? && "principalClass" in props.value)
      && (EOAdaptorClassNameKey in r.value <==>
            props.Some? && "eoAdaptorClassName" in props.value && props.value["eoAdaptorClassName"] != "")
      && (PrincipalClassKey in r.value ==> r.value[PrincipalClassKey] == Text(props.value["principalClass"]))
      && (EOAdaptorClassNameKey in r.value ==> r.value[EOAdaptorClassNameKey] == Text(props.value["eoAdaptorClassName"]))
      && r.value[BundleSignatureKey] == Text("webo")
      && r.value[BundlePackageTypeKey] == Text(if m.packaging == "woapplication" then "APPL" else "FMWK")
      && r.value[ExecutableKey] == Text(m.artifactId)
      && r.value[ShortVersionStringKey] == Text(if m.version.Some? then m.version.value else m.parent.value.version)
      && Walk(h.fs, root).Some?
      && r.value[HasWOComponentsKey] == Flag(HasComponentDirectory(Walk(h.fs, root).value))
      && r.value[ManifestImplementationVersionKey] == Text("0")
  {
    var dictionary := BuildPropertiesEntries(h, root);
    dictionary := dictionary[BundleSignatureKey := Text("webo")];

    var pom := root + [PomName];
    var read := ReadPom(h, pom);
    if read.Err? {
      return Err(read.error);
    }
    var model := read.value;
    var isApp := model.packaging == "woapplication";
    var packageType := if isApp then APPL else FMWK;
    dictionary := dictionary[BundlePackageTypeKey := Text(PackageTypeName(packageType))];
    dictionary := dictionary[ExecutableKey := Text(model.artifactId)];
    var version := ShortVersion(model);
    if version.Err? {
      return Err(version.error);
    }
    dictionary := dictionary[ShortVersionStringKey := Text(version.value)];

    var hasComponents := WalkForComponents(h, root);
    dictionary := dictionary[HasWOComponentsKey := Flag(hasComponents)];
    dictionary := dictionary[ManifestImplementationVersionKey := Text("0")];
    return Ok(dictionary);
  }
}
