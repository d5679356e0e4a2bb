/** The planner as it runs: sizes, bounds, folder sets and file lists updated in place. */
module ArchivePacking {
  import opened ArchivePlan
  import opened ArchiveSplit

  function SaturatingAdd(a: nat, b: nat): U64 {
    if a + b <= U64_MAX then a + b else U64_MAX
  }

  /** The most bytes a planned BSA can take, kept file by file against its game's size cap. */
  class CappedLayout {
    const cap: U64
    const directoryRecord: nat
    var directories: set<Folder>
    var bound: nat
    /** The files counted so far. */
    ghost var files: seq<PackSource>

    ghost predicate Valid()
      reads this
    {
      && BSA_HEADER <= cap && 2 * cap <= U64_MAX && directoryRecord <= 24
      && directories == FoldersOf(files)
      && bound == Bound(files, directoryRecord)
      && bound <= cap
    }

    constructor (cap: U64, directoryRecord: nat)
      requires BSA_HEADER <= cap && 2 * cap <= U64_MAX && directoryRecord <= 24
      ensures Valid() && files == [] && this.cap == cap && this.directoryRecord == directoryRecord
    {
      this.cap, this.directoryRecord, directories, bound, files := cap, directoryRecord, {}, BSA_HEADER, [];
    }

    method Add(path: Path, size: U64) returns (counted: bool)
      requires Valid()
      modifies this
      ensures Valid()
      ensures counted <==> Bound(old(files) + [PackSource(path, size)], directoryRecord) <= cap
      ensures files == if counted then old(files) + [PackSource(path, size)] else old(files)
    {
      var folder := if path.folder in directories then 0 else FolderBytes(path.folder, directoryRecord);
      var file := SaturatingAdd(SaturatingAdd(size, BSA_FILE_RECORD), path.nameBytes + 1);
      var next := SaturatingAdd(SaturatingAdd(bound, folder), file);
      BoundOfOneMore(files, PackSource(path, size), directoryRecord);
      if next > cap { return false; }
      bound := next;
      directories := directories + {path.folder};
      files := files + [PackSource(path, size)];
      return true;
    }

    /** One header, and each folder both hold counted once. */
    method MergedBound(other: CappedLayout) returns (merged: nat)
      requires Valid() && other.Valid() && other.directoryRecord == directoryRecord
      requires bound + other.bound <= U64_MAX
      ensures merged == Bound(files + other.files, directoryRecord)
    {
      var shared := 0;
      var folders := directories * other.directories;
      var left := folders;
      while left != {}
        invariant left <= folders
        invariant shared + FoldersBytes(left, directoryRecord) == FoldersBytes(folders, directoryRecord)
        decreases left
      {
        var folder :| folder in left;
        FoldersBytesWithout(left, folder, directoryRecord);
        shared := shared + FolderBytes(folder, directoryRecord);
        left := left - {folder};
      }
      BoundOfAppend(files, other.files, directoryRecord);
      merged := bound + other.bound - BSA_HEADER - shared;
    }

    method Absorb(other: CappedLayout)
      requires Valid() && other.Valid() && other != this && other.directoryRecord == directoryRecord
      requires bound + other.bound <= U64_MAX && Bound(files + other.files, directoryRecord) <= cap
      modifies this, other
      ensures Valid() && files == old(files + other.files)
      ensures other.Valid() && other.files == []
    {
      FoldersOfAppend(files, other.files);
      bound := MergedBound(other);
      directories := directories + other.directories;
      files := files + other.files;
      other.directories, other.bound, other.files := {}, BSA_HEADER, [];
    }
  }

  function PathsOf(sources: seq<PackSource>): seq<Path> {
    if sources == [] then [] else PathsOf(sources[..|sources| - 1]) + [sources[|sources| - 1].path]
  }

  lemma {:induction false} PathsOfAppend(a: seq<PackSource>, b: seq<PackSource>)
    ensures PathsOf(a + b) == PathsOf(a) + PathsOf(b)
    decreases |b|
  {
    if b == [] {
      assert a + b == a;
    } else {
      assert (a + b)[..|a + b| - 1] == a + b[..|b| - 1];
      PathsOfAppend(a, b[..|b| - 1]);
    }
  }

  /** The files planned into one output Archive, while they are added. */
  class ArchiveData {
    var size: nat
    const archiveLimit: U64
    var archiveType: ArchiveType
    const version: ArchiveVersion
    var files: seq<Path>
    const layout: CappedLayout?
    /** The files with their sizes, which the plan itself drops. */
    ghost var sources: seq<PackSource>

    ghost function Repr(): set<object> {
      if layout == null then {this} else {this, layout}
    }

    ghost function View(): Archive
      reads this
    {
      Archive(archiveType, version, archiveLimit, if layout == null then None else Some(layout.cap), sources)
    }

    ghost predicate Valid()
      reads this, layout
    {
      && files == PathsOf(sources)
      && size == TotalSize(sources) <= U64_MAX
      && (layout != null ==>
            layout.Valid() && layout.files == sources && DirectoryRecord(version) == Some(layout.directoryRecord))
    }

    constructor (settings: Settings, kind: ArchiveType)
      requires Sound(settings)
      ensures Valid() && fresh(Repr()) && View() == New(settings, kind)
    {
      var version := VersionFor(settings, kind);
      size, archiveLimit, archiveType, files, sources := 0, settings.archiveLimit, kind, [], [];
      this.version := version;
      var record := DirectoryRecord(version);
      if settings.sizeCap.Some? && record.Some? {
        layout := new CappedLayout(settings.sizeCap.value, record.value);
      } else {
        layout := null;
      }
    }

    /** What one more file does to the paths and sizes kept of the files. */
    static lemma {:induction false} OneMoreFile(sources: seq<PackSource>, source: PackSource)
      returns (more: seq<PackSource>)
      ensures more == sources + [source]
      ensures PathsOf(more) == PathsOf(sources) + [source.path] && TotalSize(more) == TotalSize(sources) + source.size
      ensures PathsOf(sources) == [] <==> sources == []
    {
      more := sources + [source];
      assert more[..|sources|] == sources;
    }

    /** Counts one more file against the size cap, where there is one. */
    method Count(path: Path, size: U64) returns (counted: bool)
      requires Valid()
      modifies Repr() - {this}
      ensures counted <==> Fits(old(View()), sources + [PackSource(path, size)])
      ensures layout != null ==>
                layout.Valid() && layout.files == if counted then sources + [PackSource(path, size)] else sources
      ensures View() == old(View())
    {
      counted := true;
      if layout != null { counted := layout.Add(path, size); }
    }

    /** Takes one file unless it passes the Archive Limit of a non-empty Archive, or the size cap. */
    method AddFile(path: Path, size: U64) returns (added: bool)
      requires Valid()
      modifies Repr()
      ensures Valid()
      ensures added <==> CanAdd(old(View()), PackSource(path, size))
      ensures View() == if added then Added(old(View()), PackSource(path, size)) else old(View())
    {
      ghost var source := PackSource(path, size);
      ghost var more := OneMoreFile(sources, source);
      var total := this.size + size;
      if total > U64_MAX || (total > archiveLimit && files != []) { return false; }
      var counted := Count(path, size);
      if !counted { return false; }
      this.size := total;
      files, sources := files + [path], more;
      return true;
    }

    method CanAbsorbOther(other: ArchiveData) returns (can: bool)
      requires Valid() && other.Valid() && size + other.size <= U64_MAX
      requires layout != null && other.layout != null ==> layout.directoryRecord == other.layout.directoryRecord
      requires layout != null && other.layout != null ==> layout.cap == other.layout.cap
      ensures can <==> CanAbsorb(View(), other.View())
    {
      var layoutFits := true;
      if layout != null && other.layout != null {
        var merged := layout.MergedBound(other.layout);
        layoutFits := merged <= layout.cap;
      }
      can := size + other.size < archiveLimit && layoutFits;
    }

    /** Moves `other`'s files here, leaving it empty and Standard. */
    method Absorb(other: ArchiveData)
      requires Valid() && other.Valid() && Repr() !! other.Repr() && CanAbsorb(View(), other.View())
      requires layout != null <==> other.layout != null
      requires layout != null ==>
                 layout.directoryRecord == other.layout.directoryRecord && layout.cap == other.layout.cap
      modifies Repr(), other.Repr()
      ensures Valid() && other.Valid()
      ensures View() == Absorbed(old(View()), old(other.View()))
      ensures other.View() == Cleared(old(other.View()))
    {
      SizesOfAppend(sources, other.sources);
      PathsOfAppend(sources, other.sources);
      if layout != null { layout.Absorb(other.layout); }
      size := size + other.size;
      files := files + other.files;
      sources := sources + other.sources;
      if archiveType == Incompressible || other.archiveType == Incompressible {
        archiveType := Incompressible;
      } else if archiveType != other.archiveType {
        archiveType := Standard;
      }
      other.size, other.files, other.sources, other.archiveType := 0, [], [], Standard;
    }
  }

  datatype Placing = Joined | Closed | Refused

  /** Offers a source to its type's open Archive, then to a fresh one that takes its place. */
  method PlaceInto(partition: ArchiveData, settings: Settings, source: PackSource)
    returns (next: ArchiveData, placing: Placing)
    requires Sound(settings) && partition.Valid()
    modifies partition.Repr()
    ensures partition.Valid() && next.Valid()
    ensures var before, empty := old(partition.View()), New(settings, old(partition.View()).kind);
            && (placing == Joined <==> CanAdd(before, source))
            && (placing == Joined ==> next == partition && next.View() == Added(before, source))
            && (placing != Joined ==> fresh(next.Repr()))
            && (placing == Closed ==> CanAdd(empty, source) && partition.View() == before
                                      && next.View() == Added(empty, source))
            && (placing == Refused ==> !CanAdd(empty, source))
  {
    next := partition;
    var added := partition.AddFile(source.path, source.size);
    if added { return partition, Joined; }
    next := new ArchiveData(settings, partition.archiveType);
    added := next.AddFile(source.path, source.size);
    placing := if added then Closed else Refused;
  }

  /** An Archive no longer added to: what is read of it once it is moved out of its partition. */
  datatype FilledArchive = FilledArchive(archiveType: ArchiveType, version: ArchiveVersion, files: seq<Path>)

  function Filled(archive: Archive): FilledArchive {
    FilledArchive(archive.kind, archive.version, PathsOf(archive.files))
  }

  function AllFilled(archives: seq<Archive>): seq<FilledArchive> {
    if archives == [] then [] else AllFilled(archives[..|archives| - 1]) + [Filled(archives[|archives| - 1])]
  }

  lemma {:induction false} AllFilledLast(archives: seq<Archive>, last: Archive)
    ensures AllFilled(archives + [last]) == AllFilled(archives) + [Filled(last)]
  {
    assert (archives + [last])[..|archives|] == archives;
  }

  /** The partitions that filled up, and the open one of each type. */
  datatype SplitArchives = SplitArchives(
    full: seq<FilledArchive>, standard: ArchiveData, incompressible: ArchiveData, textures: ArchiveData)
  {
    function Open(kind: ArchiveType): ArchiveData {
      match kind
      case Standard => standard
      case Incompressible => incompressible
      case Textures => textures
    }

    function WithOpen(kind: ArchiveType, open: ArchiveData): SplitArchives {
      match kind
      case Standard => this.(standard := open)
      case Incompressible => this.(incompressible := open)
      case Textures => this.(textures := open)
    }
  }

  datatype SplitResult = SplitOk(split: SplitArchives) | AssetTooLarge(source: PackSource, cap: U64)

  ghost predicate IsOpen(open: ArchiveData, shown: Archive)
    reads open, open.layout
  {
    open.Valid() && open.View() == shown
  }

  /** The partitions show `p`, and the open ones share nothing. */
  ghost predicate Shows(split: SplitArchives, p: Partitions)
    reads split.standard, split.standard.layout, split.incompressible, split.incompressible.layout,
          split.textures, split.textures.layout
  {
    && split.full == AllFilled(p.full)
    && (forall kind :: IsOpen(split.Open(kind), p.Open(kind)) && p.Open(kind).kind == kind)
    && forall j, k :: j != k ==> split.Open(j).Repr() !! split.Open(k).Repr()
  }

  /** One step of the split on the partition of the source's type. */
  method PlaceAndClose(
    partition: ArchiveData, full: seq<FilledArchive>, settings: Settings, source: PackSource, kind: ArchiveType,
    ghost p: Partitions)
    returns (next: ArchiveData, full': seq<FilledArchive>, refused: bool)
    requires Sound(settings) && full == AllFilled(p.full)
    requires IsOpen(partition, p.Open(kind)) && p.Open(kind).kind == kind
    modifies partition.Repr()
    ensures refused <==> Place(p, source, kind, settings).TooLarge?
    ensures !refused ==>
              var q := Place(p, source, kind, settings).partitions;
              full' == AllFilled(q.full) && IsOpen(next, q.Open(kind)) && q.Open(kind).kind == kind
    ensures next == partition || fresh(next.Repr())
  {
    var placing;
    next, placing := PlaceInto(partition, settings, source);
    full' := full;
    if placing == Closed {
      AllFilledLast(p.full, p.Open(kind));
      full' := full + [FilledArchive(partition.archiveType, partition.version, partition.files)];
    }
    refused := placing == Refused;
  }

  /** Placing a source touches the open Archive of its own type only. */
  lemma {:induction false} PlaceLeavesOthers(p: Partitions, source: PackSource, kind: ArchiveType, settings: Settings)
    requires Place(p, source, kind, settings).Planned?
    ensures forall j :: j != kind ==> Place(p, source, kind, settings).partitions.Open(j) == p.Open(j)
  {
  }

  lemma {:induction false} WithOpenElsewhere(split: SplitArchives, kind: ArchiveType, open: ArchiveData)
    ensures split.WithOpen(kind, open).Open(kind) == open && split.WithOpen(kind, open).full == split.full
    ensures forall j :: j != kind ==> split.WithOpen(kind, open).Open(j) == split.Open(j)
  {
  }

  lemma {:induction false} SplitStep(
    sorted: seq<PackSource>, i: nat, settings: Settings, classify: Path -> FileType, p: Partitions)
    requires i < |sorted| && SplitAll(sorted[..i], settings, classify) == Planned(p)
    ensures SplitAll(sorted[..i + 1], settings, classify)
         == if KindOf(classify(sorted[i].path)).None? then Planned(p)
            else Place(p, sorted[i], KindOf(classify(sorted[i].path)).value, settings)
  {
    assert sorted[..i + 1][..i] == sorted[..i];
  }

  /** Open partitions that show their plans one by one, and share nothing, show them all. */
  lemma {:induction false} PlacedShows(
    split: SplitArchives, kind: ArchiveType, open: ArchiveData, full: seq<FilledArchive>, p: Partitions)
    requires full == AllFilled(p.full) && IsOpen(open, p.Open(kind)) && p.Open(kind).kind == kind
    requires forall j :: j != kind ==>
               && IsOpen(split.Open(j), p.Open(j)) && p.Open(j).kind == j
               && open.Repr() !! split.Open(j).Repr()
    requires forall j, k :: j != k && j != kind && k != kind ==> split.Open(j).Repr() !! split.Open(k).Repr()
    ensures Shows(split.(full := full).WithOpen(kind, open), p)
  {
    var next := split.(full := full).WithOpen(kind, open);
    WithOpenElsewhere(split.(full := full), kind, open);
    assert forall j :: split.(full := full).Open(j) == split.Open(j);
    forall j ensures IsOpen(next.Open(j), p.Open(j)) && p.Open(j).kind == j {}
    forall j, k | j != k ensures next.Open(j).Repr() !! next.Open(k).Repr() {}
  }

  lemma {:induction false} PlacedIsOwned(
    split: SplitArchives, kind: ArchiveType, open: ArchiveData, full: seq<FilledArchive>, owned: set<object>)
    requires forall j :: split.Open(j).Repr() <= owned
    ensures forall j :: split.(full := full).WithOpen(kind, open).Open(j).Repr() <= owned + open.Repr()
  {
    WithOpenElsewhere(split.(full := full), kind, open);
    assert forall j :: split.(full := full).Open(j) == split.Open(j);
  }

  method PlaceSource(
    split: SplitArchives, kind: ArchiveType, settings: Settings, source: PackSource, ghost p: Partitions,
    ghost owned: set<object>)
    returns (next: SplitArchives, refused: bool, ghost q: Partitions, ghost more: set<object>)
    requires Sound(settings) && Shows(split, p) && forall j :: split.Open(j).Repr() <= owned
    modifies split.Open(kind).Repr()
    ensures refused <==> Place(p, source, kind, settings).TooLarge?
    ensures !refused ==> Place(p, source, kind, settings) == Planned(q) && Shows(next, q)
    ensures (forall j :: next.Open(j).Repr() <= more) && owned <= more && fresh(more - owned)
  {
    q := p;
    var open, full;
    open, full, refused := PlaceAndClose(split.Open(kind), split.full, settings, source, kind, p);
    next, more := split.(full := full).WithOpen(kind, open), owned + open.Repr();
    PlacedIsOwned(split, kind, open, full, owned);
    if !refused {
      q := Place(p, source, kind, settings).partitions;
      PlaceLeavesOthers(p, source, kind, settings);
      forall j | j != kind
        ensures IsOpen(split.Open(j), q.Open(j)) && q.Open(j).kind == j && open.Repr() !! split.Open(j).Repr()
      {
        assert split.Open(kind).Repr() !! split.Open(j).Repr() && IsOpen(split.Open(j), p.Open(j));
      }
      PlacedShows(split, kind, open, full, q);
    }
  }

  method OpenPartitions(settings: Settings) returns (split: SplitArchives, ghost owned: set<object>)
    requires Sound(settings)
    ensures Shows(split, Start(settings)) && fresh(owned) && forall j :: split.Open(j).Repr() <= owned
  {
    var standard := new ArchiveData(settings, Standard);
    var incompressible := new ArchiveData(settings, Incompressible);
    var textures := new ArchiveData(settings, Textures);
    split := SplitArchives([], standard, incompressible, textures);
    owned := standard.Repr() + incompressible.Repr() + textures.Repr();
    ThreeShow(split, Start(settings));
  }

  lemma {:induction false} ThreeShow(split: SplitArchives, p: Partitions)
    requires split.full == AllFilled(p.full)
    requires IsOpen(split.standard, p.standard) && p.standard.kind == Standard
    requires IsOpen(split.incompressible, p.incompressible) && p.incompressible.kind == Incompressible
    requires IsOpen(split.textures, p.textures) && p.textures.kind == Textures
    requires split.standard.Repr() !! split.incompressible.Repr() && split.standard.Repr() !! split.textures.Repr()
    requires split.incompressible.Repr() !! split.textures.Repr()
    ensures Shows(split, p)
  {
    forall kind ensures IsOpen(split.Open(kind), p.Open(kind)) && p.Open(kind).kind == kind {}
    forall j, k | j != k ensures split.Open(j).Repr() !! split.Open(k).Repr() {}
  }

  /** Sorts the sources, then fills one open partition per type, skipping what is not packable. */
  method Split(sources: seq<PackSource>, settings: Settings, classify: Path -> FileType)
    returns (result: SplitResult)
    requires Sound(settings)
    ensures var outcome := SplitAll(SortSources(sources), settings, classify);
            match result
            case AssetTooLarge(source, cap) => outcome == TooLarge(source, cap)
            case SplitOk(split) => outcome.Planned? && Shows(split, outcome.partitions)
                                    && forall kind :: fresh(split.Open(kind).Repr())
  {
    var sorted := SortSources(sources);
    ghost var p, owned := Start(settings), {};
    var split;
    split, owned := OpenPartitions(settings);
    for i := 0 to |sorted|
      invariant SplitAll(sorted[..i], settings, classify) == Planned(p)
      invariant Shows(split, p)
      invariant fresh(owned) && forall j :: split.Open(j).Repr() <= owned
    {
      var source := sorted[i];
      SplitStep(sorted, i, settings, classify, p);
      var kind := KindOf(classify(source.path));
      if kind.Some? {
        var refused;
        ghost var q, more;
        split, refused, q, more := PlaceSource(split, kind.value, settings, source, p, owned);
        owned := more;
        if refused {
          SplitStopped(sorted, i + 1, settings, classify);
          var cap := New(settings, kind.value).cap;
          return AssetTooLarge(source, if cap.Some? then cap.value else U64_MAX);
        }
        p := q;
      }
    }
    assert sorted[..|sorted|] == sorted;
    result := SplitOk(split);
  }

  lemma {:induction false} SplitStopped(sources: seq<PackSource>, n: nat, settings: Settings,
                                        classify: Path -> FileType)
    requires n <= |sources| && SplitAll(sources[..n], settings, classify).TooLarge?
    ensures SplitAll(sources, settings, classify) == SplitAll(sources[..n], settings, classify)
    decreases |sources|
  {
    if n < |sources| {
      var front := sources[..|sources| - 1];
      assert front[..n] == sources[..n];
      SplitStopped(front, n, settings, classify);
    } else {
      assert sources[..n] == sources;
    }
  }

  method KeepNonEmpty(full: seq<FilledArchive>, ghost archives: seq<Archive>) returns (kept: seq<FilledArchive>)
    requires full == AllFilled(archives)
    ensures kept == AllFilled(NonEmpty(archives))
  {
    kept := [];
    FilledLength(archives);
    for i := 0 to |full|
      invariant kept == AllFilled(NonEmpty(archives[..i]))
    {
      FilledAt(archives, i);
      assert archives[..i + 1][..i] == archives[..i];
      assert PathsOf(archives[i].files) == [] <==> archives[i].files == [];
      if full[i].files != [] {
        AllFilledLast(NonEmpty(archives[..i]), archives[i]);
        kept := kept + [full[i]];
      } else {
        assert NonEmpty(archives[..i]) + [] == NonEmpty(archives[..i]);
      }
    }
    assert archives[..|archives|] == archives;
  }

  lemma {:induction false} FilledLength(archives: seq<Archive>)
    ensures |AllFilled(archives)| == |archives|
    decreases |archives|
  {
    if archives != [] { FilledLength(archives[..|archives| - 1]); }
  }

  lemma {:induction false} FilledAt(archives: seq<Archive>, i: nat)
    requires i < |archives|
    ensures i < |AllFilled(archives)| && AllFilled(archives)[i] == Filled(archives[i])
    decreases |archives|
  {
    FilledLength(archives);
    FilledLength(archives[..|archives| - 1]);
    if i < |archives| - 1 { FilledAt(archives[..|archives| - 1], i); }
  }

  /** What lets the open partitions be folded together: one container for all, and sizes that add up in 64 bits. */
  ghost predicate Mergeable(p: Partitions) {
    && TotalSize(p.standard.files) + TotalSize(p.incompressible.files) + TotalSize(p.textures.files) <= U64_MAX
    && p.standard.cap == p.incompressible.cap == p.textures.cap
    && (p.standard.cap.Some? ==>
          DirectoryRecord(p.standard.version) == DirectoryRecord(p.incompressible.version)
          == DirectoryRecord(p.textures.version))
  }

  /** Folds the open partitions as asked, then drops empty Archives. */
  method MergePartitions(split: SplitArchives, textures: bool, incompressible: bool, ghost p: Partitions)
    returns (archives: seq<FilledArchive>)
    requires Shows(split, p) && Mergeable(p)
    modifies split.Open(Standard).Repr(), split.Open(Incompressible).Repr(), split.Open(Textures).Repr()
    ensures archives == AllFilled(Merge(p, textures, incompressible))
  {
    var s, i, t := split.Open(Standard), split.Open(Incompressible), split.Open(Textures);
    assert p.Open(Standard) == p.standard && p.Open(Incompressible) == p.incompressible;
    assert p.Open(Textures) == p.textures;
    SizesOfAppend(p.standard.files, p.incompressible.files);
    if incompressible {
      var can := s.CanAbsorbOther(i);
      if can { s.Absorb(i); }
    }
    if textures {
      var can := s.CanAbsorbOther(t);
      if can { s.Absorb(t); }
    }
    var open := [
      FilledArchive(s.archiveType, s.version, s.files),
      FilledArchive(i.archiveType, i.version, i.files),
      FilledArchive(t.archiveType, t.version, t.files)];
    ghost var merged := MergeOpen(p, textures, incompressible);
    AppendThree(p.full, merged[0], merged[1], merged[2]);
    assert merged == [merged[0], merged[1], merged[2]];
    archives := KeepNonEmpty(split.full + open, p.full + merged);
  }

  lemma {:induction false} AppendThree(archives: seq<Archive>, a: Archive, b: Archive, c: Archive)
    ensures AllFilled(archives + [a, b, c]) == AllFilled(archives) + [Filled(a), Filled(b), Filled(c)]
  {
    assert archives + [a, b, c] == archives + [a] + [b] + [c];
    AllFilledLast(archives, a);
    AllFilledLast(archives + [a], b);
    AllFilledLast(archives + [a] + [b], c);
  }

  /** Rebuilds a planned Archive for writing; none when a file no longer fits. */
  method Rebuild(settings: Settings, kind: ArchiveType, files: seq<PackSource>) returns (data: ArchiveData?)
    requires Sound(settings)
    ensures data == null <==> Replay(New(settings, kind), files).None?
    ensures data != null ==>
              fresh(data.Repr()) && data.Valid() && Some(data.View()) == Replay(New(settings, kind), files)
  {
    var built := new ArchiveData(settings, kind);
    for i := 0 to |files|
      invariant fresh(built.Repr()) && built.Valid()
      invariant Replay(New(settings, kind), files[..i]) == Some(built.View())
    {
      assert files[..i + 1][..i] == files[..i];
      var added := built.AddFile(files[i].path, files[i].size);
      if !added {
        ReplayRefused(New(settings, kind), files, i + 1);
        return null;
      }
    }
    assert files[..|files|] == files;
    return built;
  }

  lemma {:induction false} ReplayRefused(archive: Archive, files: seq<PackSource>, n: nat)
    requires n <= |files| && Replay(archive, files[..n]).None?
    ensures Replay(archive, files).None?
    decreases |files|
  {
    if n < |files| {
      var front := files[..|files| - 1];
      assert front[..n] == files[..n];
      ReplayRefused(archive, front, n);
    } else {
      assert files[..n] == files;
    }
  }
}
