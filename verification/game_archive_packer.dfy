/** The packer seam: partition a Mod Root's sources, then rebuild each planned Archive for writing. */
module GameArchivePacker {
  import opened ArchivePlan
  import opened ArchiveSplit
  import opened ArchiveSplitLaws
  import opened ArchivePacking

  datatype PlannedArchive = PlannedArchive(kind: ArchiveType, files: seq<PackSource>)

  datatype PartitionResult = Archives(planned: seq<PlannedArchive>) | Failed(source: PackSource, cap: U64)

  predicate DistinctPaths(sources: seq<PackSource>) {
    forall i, j :: 0 <= i < j < |sources| ==> sources[i].path != sources[j].path
  }

  /** Looks up each file's size again, since the plan kept only paths. */
  method WithSizes(paths: seq<Path>, sizes: map<Path, U64>, ghost files: seq<PackSource>)
    returns (packed: seq<PackSource>)
    requires paths == PathsOf(files)
    requires forall file :: file in files ==> file.path in sizes && sizes[file.path] == file.size
    ensures packed == files
  {
    packed := [];
    PathsOfAt(files);
    for i := 0 to |paths|
      invariant packed == files[..i]
    {
      assert files[i] in files;
      packed := packed + [PackSource(paths[i], sizes[paths[i]])];
    }
  }

  lemma {:induction false} PathsOfAt(files: seq<PackSource>)
    ensures |PathsOf(files)| == |files| && forall i :: 0 <= i < |files| ==> PathsOf(files)[i] == files[i].path
    decreases |files|
  {
    if files != [] { PathsOfAt(files[..|files| - 1]); }
  }

  lemma {:induction false} TypesTogether(sources: seq<PackSource>, classify: Path -> FileType)
    ensures TotalSize(OfKind(sources, Standard, classify)) + TotalSize(OfKind(sources, Incompressible, classify))
            + TotalSize(OfKind(sources, Textures, classify)) <= TotalSize(sources)
    decreases |sources|
  {
    if sources != [] {
      var front, last := sources[..|sources| - 1], sources[|sources| - 1];
      TypesTogether(front, classify);
      OneOfKind(front, last, Standard, classify);
      OneOfKind(front, last, Incompressible, classify);
      OneOfKind(front, last, Textures, classify);
      assert sources == front + [last];
    }
  }

  lemma {:induction false} OneOfKind(front: seq<PackSource>, last: PackSource, kind: ArchiveType,
                                     classify: Path -> FileType)
    ensures TotalSize(OfKind(front + [last], kind, classify)) == TotalSize(OfKind(front, kind, classify))
            + if KindOf(classify(last.path)) == Some(kind) then last.size else 0
  {
    OfKindLast(front, last, kind, classify);
    BoundOfOneMore(OfKind(front, kind, classify), last, 0);
    assert OfKind(front, kind, classify) + [] == OfKind(front, kind, classify);
  }

  lemma {:induction false} OpenSize(p: Partitions, kind: ArchiveType, done: seq<PackSource>, settings: Settings,
                                    classify: Path -> FileType)
    requires Holds(p, kind, done, settings, classify)
    ensures TotalSize(p.Open(kind).files) <= TotalSize(OfKind(done, kind, classify))
    ensures Fresh(p.Open(kind), settings)
  {
    FilesOfLast(Partition(p.full, kind), p.Open(kind));
    SizesOfAppend(FilesOf(Partition(p.full, kind)), p.Open(kind).files);
    assert Packed(p, kind)[|Packed(p, kind)| - 1] == p.Open(kind);
  }

  /** Sizes below 2^64 in all and sound settings are what a merge needs. */
  lemma {:induction false} SplitIsMergeable(sorted: seq<PackSource>, settings: Settings, classify: Path -> FileType)
    requires Sound(settings) && TotalSize(sorted) <= U64_MAX && SplitAll(sorted, settings, classify).Planned?
    ensures Mergeable(SplitAll(sorted, settings, classify).partitions)
  {
    var p := SplitAll(sorted, settings, classify).partitions;
    forall kind ensures TotalSize(p.Open(kind).files) <= TotalSize(OfKind(sorted, kind, classify))
                        && Fresh(p.Open(kind), settings) && p.Open(kind).kind == kind
    {
      SplitHolds(sorted, settings, classify, kind);
      OpenSize(p, kind, sorted, settings, classify);
    }
    TypesTogether(sorted, classify);
    assert p.Open(Standard) == p.standard && p.Open(Incompressible) == p.incompressible;
    assert p.Open(Textures) == p.textures;
  }

  /** An Archive holds only what was offered. */
  lemma {:induction false} InArchive(archives: seq<Archive>, i: nat, file: PackSource)
    requires i < |archives| && file in archives[i].files
    ensures file in FilesOf(archives)
    decreases |archives|
  {
    if i < |archives| - 1 { InArchive(archives[..|archives| - 1], i, file); }
  }

  ghost predicate KnowsSizes(sizes: map<Path, U64>, archive: Archive) {
    forall file :: file in archive.files ==> file.path in sizes && sizes[file.path] == file.size
  }

  /** Each filled Archive's plan, its files with their sizes again. */
  method PlanFiles(filled: seq<FilledArchive>, sizes: map<Path, U64>, ghost archives: seq<Archive>)
    returns (planned: seq<PlannedArchive>)
    requires filled == AllFilled(archives)
    requires forall i :: 0 <= i < |archives| ==> KnowsSizes(sizes, archives[i])
    ensures |planned| == |archives|
    ensures forall i :: 0 <= i < |planned| ==> planned[i] == PlannedArchive(archives[i].kind, archives[i].files)
  {
    FilledLength(archives);
    planned := [];
    for i := 0 to |filled|
      invariant |planned| == i
      invariant forall k :: 0 <= k < i ==> planned[k] == PlannedArchive(archives[k].kind, archives[k].files)
    {
      FilledAt(archives, i);
      var files := WithSizes(filled[i].files, sizes, archives[i].files);
      planned := planned + [PlannedArchive(filled[i].archiveType, files)];
    }
  }

  /**
   * Plans a Mod Root's Archives. It fails exactly when a source is too big for a BSA of its own, on the first such in
   * sorted order; otherwise each planned Archive, rebuilt from its type alone, takes its files back one by one.
   */
  method PartitionSources(
    sources: seq<PackSource>, settings: Settings, classify: Path -> FileType, textures: bool, incompressible: bool)
    returns (result: PartitionResult)
    requires Sound(settings) && DistinctPaths(sources) && TotalSize(sources) <= U64_MAX
    ensures result.Failed? <==> SomeTooBig(sources, settings, classify)
    ensures result.Failed? ==>
              && IsFirstTooBig(result.source, SortSources(sources), settings, classify)
              && settings.sizeCap == Some(result.cap)
    ensures result.Archives? ==>
              var outcome := SplitAll(SortSources(sources), settings, classify);
              && outcome.Planned?
              && |result.planned| == |Merge(outcome.partitions, textures, incompressible)|
              && (forall i :: 0 <= i < |result.planned| ==>
                    var archive := Merge(outcome.partitions, textures, incompressible)[i];
                    result.planned[i] == PlannedArchive(archive.kind, archive.files))
              && (forall i :: 0 <= i < |result.planned| ==>
                    result.planned[i].files != []
                    && Replay(New(settings, result.planned[i].kind), result.planned[i].files).Some?)
  {
    ghost var sorted := SortSources(sources);
    SortSorts(sources);
    SizesIgnoreOrder(sources, sorted);
    SameTooBig(sources, sorted, settings, classify);
    SplitFailsOnFirstTooBig(sorted, settings, classify);
    var sizes := SizesOf(sources);
    var r := Split(sources, settings, classify);
    match r {
      case AssetTooLarge(source, cap) => return Failed(source, cap);
      case SplitOk(split) =>
        ghost var p := SplitAll(sorted, settings, classify).partitions;
        SplitIsMergeable(sorted, settings, classify);
        var filled := MergePartitions(split, textures, incompressible, p);
        ghost var archives := Merge(p, textures, incompressible);
        forall i | 0 <= i < |archives| ensures KnowsSizes(sizes, archives[i]) {
          SizesKnown(sources, settings, classify, textures, incompressible, i, sizes);
        }
        var planned := PlanFiles(filled, sizes, archives);
        forall i | 0 <= i < |planned|
          ensures planned[i].files != [] && Replay(New(settings, planned[i].kind), planned[i].files).Some?
        {
          EveryPlanIsRebuilt(sorted, settings, classify, textures, incompressible, archives[i]);
        }
        return Archives(planned);
    }
  }

  lemma {:induction false} SameTooBig(a: seq<PackSource>, b: seq<PackSource>, settings: Settings,
                                      classify: Path -> FileType)
    requires multiset(a) == multiset(b)
    ensures SomeTooBig(a, settings, classify) <==> SomeTooBig(b, settings, classify)
  {
    forall i | 0 <= i < |a| ensures a[i] in b { assert a[i] in multiset(a); assert a[i] in multiset(b); }
    forall i | 0 <= i < |b| ensures b[i] in a { assert b[i] in multiset(b); assert b[i] in multiset(a); }
  }

  ghost predicate HasSizes(sizes: map<Path, U64>, sources: seq<PackSource>) {
    forall i :: 0 <= i < |sources| ==> sources[i].path in sizes && sizes[sources[i].path] == sources[i].size
  }

  method SizesOf(sources: seq<PackSource>) returns (sizes: map<Path, U64>)
    requires DistinctPaths(sources)
    ensures HasSizes(sizes, sources)
  {
    sizes := map[];
    for i := 0 to |sources|
      invariant forall k :: 0 <= k < i ==> sources[k].path in sizes && sizes[sources[k].path] == sources[k].size
    {
      sizes := sizes[sources[i].path := sources[i].size];
    }
  }

  lemma {:induction false} SizesKnown(
    sources: seq<PackSource>, settings: Settings, classify: Path -> FileType, textures: bool, incompressible: bool,
    i: nat, sizes: map<Path, U64>)
    requires Sound(settings) && HasSizes(sizes, sources)
    requires SplitAll(SortSources(sources), settings, classify).Planned?
    requires i < |Merge(SplitAll(SortSources(sources), settings, classify).partitions, textures, incompressible)|
    ensures var p := SplitAll(SortSources(sources), settings, classify).partitions;
            KnowsSizes(sizes, Merge(p, textures, incompressible)[i])
  {
    var sorted := SortSources(sources);
    var archives := Merge(SplitAll(sorted, settings, classify).partitions, textures, incompressible);
    SortSorts(sources);
    forall file | file in archives[i].files ensures file.path in sizes && sizes[file.path] == file.size {
      InArchive(archives, i, file);
      MergeAddsNothing(sorted, settings, classify, textures, incompressible, file);
      assert file in multiset(sorted);
      assert file in multiset(sources);
    }
  }

  /** Rebuilds every planned Archive: with a plan of `PartitionSources`, none is refused. */
  method RebuildAll(planned: seq<PlannedArchive>, settings: Settings) returns (rebuilt: seq<ArchiveData>)
    requires Sound(settings)
    requires forall i :: 0 <= i < |planned| ==> Replay(New(settings, planned[i].kind), planned[i].files).Some?
    ensures |rebuilt| == |planned|
    ensures forall i :: 0 <= i < |planned| ==>
              fresh(rebuilt[i].Repr()) && rebuilt[i].Valid()
              && Some(rebuilt[i].View()) == Replay(New(settings, planned[i].kind), planned[i].files)
  {
    rebuilt := [];
    for i := 0 to |planned|
      invariant |rebuilt| == i
      invariant forall k :: 0 <= k < i ==>
                  fresh(rebuilt[k].Repr()) && rebuilt[k].Valid()
                  && Some(rebuilt[k].View()) == Replay(New(settings, planned[k].kind), planned[k].files)
    {
      var data := Rebuild(settings, planned[i].kind, planned[i].files);
      rebuilt := rebuilt + [data];
    }
  }
}
