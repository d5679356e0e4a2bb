/** Splitting sorted sources into Archives, merging the open ones, and replaying a plan file by file. */
module ArchiveSplit {
  import opened ArchivePlan

  function KindOf(fileType: FileType): Option<ArchiveType> {
    match fileType
    case StandardFile => Some(Standard)
    case IncompressibleFile => Some(Incompressible)
    case TextureFile => Some(Textures)
    case Unpackable | Plugin | ArchiveFile => None
  }

  /** The Archives that filled up, and one open Archive per type. */
  datatype Partitions = Partitions(full: seq<Archive>, standard: Archive, incompressible: Archive, textures: Archive)
  {
    function Open(kind: ArchiveType): Archive {
      match kind
      case Standard => standard
      case Incompressible => incompressible
      case Textures => textures
    }

    function WithOpen(kind: ArchiveType, archive: Archive): Partitions {
      match kind
      case Standard => this.(standard := archive)
      case Incompressible => this.(incompressible := archive)
      case Textures => this.(textures := archive)
    }
  }

  function Start(settings: Settings): Partitions {
    Partitions([], New(settings, Standard), New(settings, Incompressible), New(settings, Textures))
  }

  datatype Outcome = Planned(partitions: Partitions) | TooLarge(source: PackSource, cap: U64)

  /** One source into its type's open Archive, or into a fresh one when that is closed by it. */
  ghost function Place(p: Partitions, source: PackSource, kind: ArchiveType, settings: Settings): Outcome {
    var open, empty := p.Open(kind), New(settings, kind);
    if CanAdd(open, source) then Planned(p.WithOpen(kind, Added(open, source)))
    else if CanAdd(empty, source) then Planned(p.(full := p.full + [open]).WithOpen(kind, Added(empty, source)))
    else TooLarge(source, if empty.cap.Some? then empty.cap.value else U64_MAX)
  }

  ghost function SplitAll(sources: seq<PackSource>, settings: Settings, classify: Path -> FileType): Outcome {
    if sources == [] then Planned(Start(settings))
    else
      var before, source := SplitAll(sources[..|sources| - 1], settings, classify), sources[|sources| - 1];
      var kind := KindOf(classify(source.path));
      if before.TooLarge? || kind.None? then before else Place(before.partitions, source, kind.value, settings)
  }

  function Cleared(archive: Archive): Archive {
    archive.(files := [], kind := Standard)
  }

  function NonEmpty(archives: seq<Archive>): seq<Archive> {
    if archives == [] then []
    else NonEmpty(archives[..|archives| - 1])
         + if archives[|archives| - 1].files != [] then [archives[|archives| - 1]] else []
  }

  /** The open Archives after `merge` folds what it may into the Standard one. */
  ghost function MergeOpen(p: Partitions, textures: bool, incompressible: bool): seq<Archive> {
    var first := incompressible && CanAbsorb(p.standard, p.incompressible);
    var s := if first then Absorbed(p.standard, p.incompressible) else p.standard;
    var i := if first then Cleared(p.incompressible) else p.incompressible;
    if textures && CanAbsorb(s, p.textures) then [Absorbed(s, p.textures), i, Cleared(p.textures)]
    else [s, i, p.textures]
  }

  ghost function Merge(p: Partitions, textures: bool, incompressible: bool): seq<Archive> {
    NonEmpty(p.full + MergeOpen(p, textures, incompressible))
  }

  /** Rebuilding a plan: each file offered in order, none if one is refused. */
  ghost function Replay(archive: Archive, files: seq<PackSource>): Option<Archive> {
    if files == [] then Some(archive)
    else
      var before, source := Replay(archive, files[..|files| - 1]), files[|files| - 1];
      if before.Some? && CanAdd(before.value, source) then Some(Added(before.value, source)) else None
  }

  function FilesOf(archives: seq<Archive>): seq<PackSource> {
    if archives == [] then [] else FilesOf(archives[..|archives| - 1]) + archives[|archives| - 1].files
  }

  function Partition(archives: seq<Archive>, kind: ArchiveType): seq<Archive> {
    if archives == [] then []
    else Partition(archives[..|archives| - 1], kind)
         + if archives[|archives| - 1].kind == kind then [archives[|archives| - 1]] else []
  }

  function OfKind(sources: seq<PackSource>, kind: ArchiveType, classify: Path -> FileType): seq<PackSource> {
    if sources == [] then []
    else OfKind(sources[..|sources| - 1], kind, classify)
         + if KindOf(classify(sources[|sources| - 1].path)) == Some(kind) then [sources[|sources| - 1]] else []
  }

  // The sort: component by component, each by UTF-16 code unit, equal keys in the order they came.

  function SortKey(path: Path): seq<seq<int>> {
    path.folder.components + [path.name]
  }

  predicate UnitsAtMost(a: seq<int>, b: seq<int>) {
    a == [] || (b != [] && (a[0] < b[0] || (a[0] == b[0] && UnitsAtMost(a[1..], b[1..]))))
  }

  predicate KeyAtMost(a: seq<seq<int>>, b: seq<seq<int>>) {
    a == [] || (b != [] && (if a[0] == b[0] then KeyAtMost(a[1..], b[1..]) else UnitsAtMost(a[0], b[0])))
  }

  function Insert(source: PackSource, sorted: seq<PackSource>): seq<PackSource> {
    if sorted == [] || KeyAtMost(SortKey(source.path), SortKey(sorted[0].path)) then [source] + sorted
    else [sorted[0]] + Insert(source, sorted[1..])
  }

  function SortSources(sources: seq<PackSource>): seq<PackSource> {
    if sources == [] then [] else Insert(sources[0], SortSources(sources[1..]))
  }

  predicate Sorted(sources: seq<PackSource>) {
    forall i :: 0 < i < |sources| ==> KeyAtMost(SortKey(sources[i - 1].path), SortKey(sources[i].path))
  }
}
