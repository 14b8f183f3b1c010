/**
 * Resource directories of a bundle (MavenBundleAdaptor.resourcePathsFromPom,
 * resourcePathsForFileSystem): a POM's own resource directories followed by
 * those of its parent chain, all resolved against the bundle root.
 */
module ResourcePaths {
  import opened Wrappers
  import opened Files
  import opened Maven

  /** Optional.ofNullable(getBuild()).map(getResources).orElse(empty): a POM's own resource directories. */
  function OwnResources(m: Model): (dirs: seq<PathRef>)
    ensures m.resources.None? ==> dirs == []
    ensures m.resources.Some? ==> dirs == m.resources.value
  {
    match m.resources
    case Some(dirs) => dirs
    case None => []
  }

  /** Where a POM's parent POM lies: resolveSibling of the parent's relativePath. */
  function ParentPom(pom: Path, m: Model): Path
    requires m.parent.Some?
  {
    ResolveSibling(pom, m.parent.value.relativePath)
  }

  /**
   * The parent chain from `pom` ends within `n` steps: reading stops with an
   * error or at a POM without a parent. On a cyclic chain the Java code recurses
   * until the stack overflows; such a chain satisfies this for no `n`.
   */
  predicate ChainEnds(h: Host, pom: Path, n: nat)
    decreases n
  {
    match ReadPom(h, pom)
    case Err(_) => true
    case Ok(m) => m.parent.None? || (n > 0 && ChainEnds(h, ParentPom(pom, m), n - 1))
  }

  /** One POM of a parent chain and its model. */
  datatype Link = Link(pom: Path, model: Model)

  /** The parent chain from `pom`, child first, or the first read error met along it. */
  function Ancestry(h: Host, pom: Path, n: nat): Result<seq<Link>, Error>
    requires ChainEnds(h, pom, n)
    decreases n
  {
    match ReadPom(h, pom)
    case Err(e) => Err(e)
    case Ok(m) =>
      if m.parent.None? then Ok([Link(pom, m)])
      else match Ancestry(h, ParentPom(pom, m), n - 1)
        case Err(e) => Err(e)
        case Ok(links) => Ok([Link(pom, m)] + links)
  }

  /** The chain is a chain: it starts at `pom`, each link is the parent of the one before, and the last has no parent. */
  lemma {:induction false} AncestryIsParentChain(h: Host, pom: Path, n: nat)
    requires ChainEnds(h, pom, n) && Ancestry(h, pom, n).Ok?
    ensures var links := Ancestry(h, pom, n).value;
      && |links| >= 1
      && links[0].pom == pom
      && (forall i | 0 <= i < |links| :: ReadPom(h, links[i].pom) == Ok(links[i].model))
      && (forall i | 0 <= i < |links| - 1 ::
            links[i].model.parent.Some? && links[i + 1].pom == ParentPom(links[i].pom, links[i].model))
      && links[|links| - 1].model.parent.None?
    decreases n
  {
    var m := ReadPom(h, pom).value;
    if m.parent.Some? {
      AncestryIsParentChain(h, ParentPom(pom, m), n - 1);
    }
  }

  /** The bound is only a termination witness: any bound that suffices gives the same chain. */
  lemma {:induction false} AncestryIndependentOfBound(h: Host, pom: Path, n: nat, n': nat)
    requires ChainEnds(h, pom, n) && ChainEnds(h, pom, n')
    ensures Ancestry(h, pom, n) == Ancestry(h, pom, n')
    decreases n
  {
    match ReadPom(h, pom)
    case Err(_) =>
    case Ok(m) =>
      if m.parent.Some? {
        AncestryIndependentOfBound(h, ParentPom(pom, m), n - 1, n' - 1);
      }
  }

  /** The resource directories of a chain, link by link, with no deduplication. */
  function Inherited(links: seq<Link>): seq<PathRef>
  {
    if links == [] then [] else OwnResources(links[0].model) + Inherited(links[1..])
  }

  /** How many resource directories the links declare together. */
  function ResourceCount(links: seq<Link>): nat
  {
    if links == [] then 0 else |OwnResources(links[0].model)| + ResourceCount(links[1..])
  }

  /** Nothing is dropped or merged: the list is as long as the declarations it collects. */
  lemma {:induction false} InheritedLength(links: seq<Link>)
    ensures |Inherited(links)| == ResourceCount(links)
  {
    if links != [] {
      InheritedLength(links[1..]);
    }
  }

  /**
   * Order: the directories of link `i` appear unchanged, in declaration order,
   * right after those of every link before it.
   */
  lemma {:induction false} InheritedBlocks(links: seq<Link>, i: nat)
    requires i < |links|
    ensures var start := ResourceCount(links[..i]);
      && start + |OwnResources(links[i].model)| <= |Inherited(links)|
      && Inherited(links)[start..start + |OwnResources(links[i].model)|] == OwnResources(links[i].model)
  {
    InheritedLength(links);
    if i > 0 {
      InheritedBlocks(links[1..], i - 1);
      assert links[..i][1..] == links[1..][..i - 1];
    }
  }

  /**
   * resourcePathsFromPom: read the POM, take its own directories, recurse to
   * the parent POM if there is one, and append what the recursion returns. A
   * read error anywhere in the chain fails the whole call.
   */
  method ResourcePathsFromPom(h: Host, pom: Path, ghost n: nat) returns (r: Result<seq<PathRef>, Error>)
    requires ChainEnds(h, pom, n)
    ensures r.Ok? <==> Ancestry(h, pom, n).Ok?
    ensures r.Err? ==> r.error == Ancestry(h, pom, n).error
    ensures r.Ok? ==> r.value == Inherited(Ancestry(h, pom, n).value)
    ensures ReadPom(h, pom).Ok? && ReadPom(h, pom).value.parent.None? ==> r == Ok(OwnResources(ReadPom(h, pom).value))
    decreases n
  {
    var read := ReadPom(h, pom);
    if read.Err? {
      return Err(read.error);
    }
    var model := read.value;
    var paths := OwnResources(model);
    var parentPaths: seq<PathRef> := [];
    if model.parent.Some? {
      var fromParent := ResourcePathsFromPom(h, ResolveSibling(pom, model.parent.value.relativePath), n - 1);
      if fromParent.Err? {
        return Err(fromParent.error);
      }
      parentPaths := fromParent.value;
    }
    paths := paths + parentPaths;
    assert Inherited([Link(pom, model)]) == OwnResources(model);
    return Ok(paths);
  }

  /**
   * resourcePathsForFileSystem: the directories found from root/pom.xml, each
   * resolved against the bundle root, the parent's ones included, in the same
   * order.
   */
  method ResourcePathsForFileSystem(h: Host, root: Path, ghost n: nat) returns (r: Result<seq<Path>, Error>)
    requires ChainEnds(h, root + [PomName], n)
    ensures r.Ok? <==> Ancestry(h, root + [PomName], n).Ok?
    ensures r.Err? ==> r.error == Ancestry(h, root + [PomName], n).error
    ensures r.Ok? ==>
      var dirs := Inherited(Ancestry(h, root + [PomName], n).value);
      && |r.value| == |dirs| == ResourceCount(Ancestry(h, root + [PomName], n).value)
      && forall i | 0 <= i < |dirs| :: r.value[i] == Resolve(root, dirs[i])
  {
    var pom := root + [PomName];
    var paths := ResourcePathsFromPom(h, pom, n);
    if paths.Err? {
      return Err(paths.error);
    }
    var dirs := paths.value;
    InheritedLength(Ancestry(h, pom, n).value);
    return Ok(seq(|dirs|, i requires 0 <= i < |dirs| => Resolve(root, dirs[i])));
  }
}
