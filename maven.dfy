/**
 * What the adaptor sees of a Maven project: the parsed POM model, the
 * collaborators that parse files, and reading a POM from the filesystem.
 */
module Maven {
  import opened Wrappers
  import opened Files

  /** The <parent> element: where the parent POM lies and the version it declares. */
  datatype ParentRef = ParentRef(relativePath: PathRef, version: string)

  /**
   * The parts of org.apache.maven.model.Model the adaptor reads. `version` and
   * `parent` are None where the POM leaves them out (getVersion / getParent
   * return null); `resources` is None when the POM has no <build> element and
   * otherwise the <directory> of each <resource>, in declaration order.
   */
  datatype Model = Model(
    packaging: string,
    artifactId: string,
    version: Option<string>,
    parent: Option<ParentRef>,
    resources: Option<seq<PathRef>>)

  /**
   * How an operation fails: an IOException (a file missing, unreadable or a
   * directory), an XmlPullParserException from the POM reader, and a POM with
   * no version and no parent (as written in the Java: any POM without <parent>,
   * whose getParent() is dereferenced).
   */
  datatype Error = IOFailure | MalformedPom | MissingVersion

  /**
   * The adaptor's environment: the filesystem and the two foreign parsers,
   * MavenXpp3Reader.read (None on malformed XML) and Properties.load.
   */
  datatype Host = Host(
    fs: FileSystem,
    parsePom: string -> Option<Model>,
    loadProperties: string -> map<string, string>)

  const PomName: Segment := "pom.xml"

  /** new FileReader(pom) followed by MavenXpp3Reader.read. */
  function ReadPom(h: Host, pom: Path): (r: Result<Model, Error>)
    ensures r.Ok? <==> IsReadableFile(h.fs, pom) && h.parsePom(EntryAt(h.fs, pom).value.content).Some?
    ensures r.Ok? ==> h.parsePom(EntryAt(h.fs, pom).value.content) == Some(r.value)
    ensures r == Err(MalformedPom) <==> IsReadableFile(h.fs, pom) && h.parsePom(EntryAt(h.fs, pom).value.content).None?
    ensures r.Err? ==> r.error != MissingVersion
  {
    match EntryAt(h.fs, pom)
    case Some(File(content, readable)) =>
      if !readable then Err(IOFailure)
      else if h.parsePom(content).None? then Err(MalformedPom)
      else Ok(h.parsePom(content).value)
    case _ => Err(IOFailure)
  }
}
