/** What is planned: sources, the Archives they are grouped into, and the closed forms of their sizes. */
module ArchivePlan {
  const U64_MAX: nat := 0xFFFF_FFFF_FFFF_FFFF

  type U64 = n: int | 0 <= n <= U64_MAX
  /** The length of a name or path: no string is longer than `isize::MAX` bytes. */
  type ByteLength = n: int | 0 <= n < 0x8000_0000_0000_0000

  datatype Option<T> = None | Some(value: T)

  /** A directory: its components as UTF-16 units, and its length as UTF-8. */
  datatype Folder = Folder(components: seq<seq<int>>, bytes: ByteLength)

  datatype Path = Path(folder: Folder, name: seq<int>, nameBytes: ByteLength)

  datatype PackSource = PackSource(path: Path, size: U64)

  datatype ArchiveType = Standard | Incompressible | Textures
  datatype ArchiveVersion = Tes5 | Sse | Fo4 | Fo4Dx
  datatype FileType = StandardFile | TextureFile | IncompressibleFile | Unpackable | Plugin | ArchiveFile

  /** A Profile's Archive Rules, as far as planning reads them. */
  datatype Settings = Settings(
    archiveLimit: U64, sizeCap: Option<U64>, format: ArchiveVersion, textureFormat: Option<ArchiveVersion>)

  function VersionFor(settings: Settings, kind: ArchiveType): ArchiveVersion {
    if kind == Textures && settings.textureFormat.Some? then settings.textureFormat.value else settings.format
  }

  /** The bytes of one BSA directory record, or none for a BA2. */
  function DirectoryRecord(version: ArchiveVersion): Option<nat> {
    match version
    case Tes5 => Some(16)
    case Sse => Some(24)
    case Fo4 | Fo4Dx => None
  }

  datatype Game = GameTes5 | GameSse | GameFo4

  function ShippedRules(game: Game): Settings {
    match game
    case GameTes5 => Settings(2000 * 1024 * 1024, Some(2 * 1024 * 1024 * 1024), Tes5, None)
    case GameSse => Settings(2000 * 1024 * 1024, Some(2 * 1024 * 1024 * 1024), Sse, Some(Sse))
    case GameFo4 => Settings(4000 * 1024 * 1024, None, Fo4, Some(Fo4Dx))
  }

  /** A requested limit replaces the game's own, and either is clamped to the Archive Size Cap. */
  function ForProfile(game: Game, requested: Option<U64>): Settings {
    var rules := ShippedRules(game);
    var limit := if requested.Some? then requested.value else rules.archiveLimit;
    rules.(archiveLimit := if rules.sizeCap.Some? && rules.sizeCap.value < limit then rules.sizeCap.value else limit)
  }

  /** A cap that holds a header and can be doubled in 64 bits, and one record size for every partition. */
  predicate Sound(settings: Settings) {
    && (settings.sizeCap.Some? ==> 36 <= settings.sizeCap.value && 2 * settings.sizeCap.value <= U64_MAX)
    && (settings.sizeCap.Some? ==>
          DirectoryRecord(VersionFor(settings, Textures)) == DirectoryRecord(settings.format))
  }

  lemma {:induction false} ShippedRulesAreSound(game: Game, requested: Option<U64>)
    ensures Sound(ForProfile(game, requested))
    ensures ForProfile(game, requested).sizeCap.Some? ==>
              ForProfile(game, requested).archiveLimit <= ForProfile(game, requested).sizeCap.value
  {
  }

  const BSA_HEADER := 36
  const BSA_FILE_RECORD := 16

  function FolderBytes(folder: Folder, record: nat): nat {
    record + 1 + folder.bytes + 1
  }

  function FileBytes(source: PackSource): nat {
    source.size + BSA_FILE_RECORD + source.path.nameBytes + 1
  }

  function TotalSize(files: seq<PackSource>): nat {
    if files == [] then 0 else TotalSize(files[..|files| - 1]) + files[|files| - 1].size
  }

  function FilesBytes(files: seq<PackSource>): nat {
    if files == [] then 0 else FilesBytes(files[..|files| - 1]) + FileBytes(files[|files| - 1])
  }

  function FoldersOf(files: seq<PackSource>): set<Folder> {
    set source | source in files :: source.path.folder
  }

  ghost function FoldersBytes(folders: set<Folder>, record: nat): nat {
    if folders == {} then 0
    else
      var folder :| folder in folders;
      FolderBytes(folder, record) + FoldersBytes(folders - {folder}, record)
  }

  /** The most bytes a BSA of these files can take, whatever order or steps they were planned in. */
  ghost function Bound(files: seq<PackSource>, record: nat): nat {
    BSA_HEADER + FilesBytes(files) + FoldersBytes(FoldersOf(files), record)
  }

  /** One Archive's plan; `cap` is none for a container without one. */
  datatype Archive = Archive(
    kind: ArchiveType, version: ArchiveVersion, limit: U64, cap: Option<U64>, files: seq<PackSource>)

  function New(settings: Settings, kind: ArchiveType): Archive {
    var version := VersionFor(settings, kind);
    Archive(kind, version, settings.archiveLimit,
            if DirectoryRecord(version).Some? then settings.sizeCap else None, [])
  }

  /** Whether a BSA of `files` stays within this Archive's size cap. */
  ghost predicate Fits(archive: Archive, files: seq<PackSource>) {
    archive.cap.Some? && DirectoryRecord(archive.version).Some? ==>
      Bound(files, DirectoryRecord(archive.version).value) <= archive.cap.value
  }

  /** Whether one more file is taken: within the limit unless the Archive is empty, and always within the cap. */
  ghost predicate CanAdd(archive: Archive, source: PackSource) {
    && TotalSize(archive.files) + source.size <= U64_MAX
    && (TotalSize(archive.files) + source.size <= archive.limit || archive.files == [])
    && Fits(archive, archive.files + [source])
  }

  function Added(archive: Archive, source: PackSource): Archive {
    archive.(files := archive.files + [source])
  }

  ghost predicate CanAbsorb(archive: Archive, other: Archive) {
    && TotalSize(archive.files) + TotalSize(other.files) < archive.limit
    && (archive.cap.Some? && other.cap.Some? ==> Fits(archive, archive.files + other.files))
  }

  function Absorbed(archive: Archive, other: Archive): Archive {
    archive.(
      files := archive.files + other.files,
      kind := if archive.kind == Incompressible || other.kind == Incompressible then Incompressible
              else if archive.kind != other.kind then Standard else archive.kind)
  }

  // Sums over folders do not depend on the order they are picked in.

  lemma {:induction false} FoldersBytesWithout(folders: set<Folder>, folder: Folder, record: nat)
    requires folder in folders
    ensures FoldersBytes(folders, record) == FolderBytes(folder, record) + FoldersBytes(folders - {folder}, record)
    decreases |folders|
  {
    var picked :| picked in folders
      && FoldersBytes(folders, record)
      == FolderBytes(picked, record) + FoldersBytes(folders - {picked}, record);
    if picked != folder {
      FoldersBytesWithout(folders - {picked}, folder, record);
      FoldersBytesWithout(folders - {folder}, picked, record);
      assert folders - {picked} - {folder} == folders - {folder} - {picked};
    }
  }

  lemma {:induction false} FoldersBytesWith(folders: set<Folder>, folder: Folder, record: nat)
    ensures FoldersBytes(folders + {folder}, record)
         == FoldersBytes(folders, record) + if folder in folders then 0 else FolderBytes(folder, record)
  {
    if folder in folders {
      assert folders + {folder} == folders;
    } else {
      FoldersBytesWithout(folders + {folder}, folder, record);
      assert folders + {folder} - {folder} == folders;
    }
  }

  /** Inclusion and exclusion: two folder sets cost together what they cost apart, less what they share. */
  lemma {:induction false} FoldersBytesUnion(a: set<Folder>, b: set<Folder>, record: nat)
    ensures FoldersBytes(a + b, record) + FoldersBytes(a * b, record)
         == FoldersBytes(a, record) + FoldersBytes(b, record)
    decreases |b|
  {
    if b == {} {
      assert a + b == a && a * b == b;
    } else {
      var folder :| folder in b;
      var rest := b - {folder};
      FoldersBytesUnion(a, rest, record);
      assert b == rest + {folder};
      FoldersBytesWith(rest, folder, record);
      FoldersBytesWith({}, folder, record);
      assert {} + {folder} == {folder};
      if folder in a {
        FoldersBytesShared(a, b, rest, folder, record);
      } else {
        FoldersBytesApart(a, b, rest, folder, record);
      }
    }
  }

  lemma {:induction false} FoldersBytesShared(a: set<Folder>, b: set<Folder>, rest: set<Folder>, folder: Folder,
                                              record: nat)
    requires folder !in rest && b == rest + {folder} && folder in a
    ensures FoldersBytes(a + b, record) == FoldersBytes(a + rest, record)
    ensures FoldersBytes(a * b, record) - FoldersBytes(a * rest, record) == FoldersBytes({folder}, record)
  {
    assert a + b == a + rest && a * b == a * rest + {folder};
    FoldersBytesWith(a * rest, folder, record);
    FoldersBytesWith({}, folder, record);
    assert {} + {folder} == {folder};
  }

  lemma {:induction false} FoldersBytesApart(a: set<Folder>, b: set<Folder>, rest: set<Folder>, folder: Folder,
                                             record: nat)
    requires folder !in rest && b == rest + {folder} && folder !in a
    ensures FoldersBytes(a * b, record) == FoldersBytes(a * rest, record)
    ensures FoldersBytes(a + b, record) - FoldersBytes(a + rest, record) == FoldersBytes({folder}, record)
  {
    assert a * b == a * rest && a + b == (a + rest) + {folder};
    FoldersBytesWith(a + rest, folder, record);
    FoldersBytesWith({}, folder, record);
    assert {} + {folder} == {folder};
  }

  lemma {:induction false} FoldersBytesMonotone(a: set<Folder>, b: set<Folder>, record: nat)
    requires a <= b
    ensures FoldersBytes(a, record) <= FoldersBytes(b, record)
  {
    FoldersBytesUnion(a, b - a, record);
    assert a + (b - a) == b && a * (b - a) == {};
  }

  lemma {:induction false} FoldersOfAppend(a: seq<PackSource>, b: seq<PackSource>)
    ensures FoldersOf(a + b) == FoldersOf(a) + FoldersOf(b)
  {
  }

  lemma {:induction false} SizesOfAppend(a: seq<PackSource>, b: seq<PackSource>)
    ensures TotalSize(a + b) == TotalSize(a) + TotalSize(b)
    ensures FilesBytes(a + b) == FilesBytes(a) + FilesBytes(b)
    decreases |b|
  {
    if b == [] {
      assert a + b == a;
    } else {
      assert (a + b)[..|a + b| - 1] == a + b[..|b| - 1];
      SizesOfAppend(a, b[..|b| - 1]);
    }
  }

  /** Merging two layouts from their own bounds gives the bound of the union planned from scratch. */
  lemma {:induction false} BoundOfAppend(a: seq<PackSource>, b: seq<PackSource>, record: nat)
    ensures Bound(a + b, record)
         == Bound(a, record) + Bound(b, record) - BSA_HEADER - FoldersBytes(FoldersOf(a) * FoldersOf(b), record)
  {
    SizesOfAppend(a, b);
    FoldersOfAppend(a, b);
    FoldersBytesUnion(FoldersOf(a), FoldersOf(b), record);
  }

  lemma {:induction false} BoundOfOneMore(files: seq<PackSource>, source: PackSource, record: nat)
    ensures Bound(files + [source], record) == Bound(files, record) + FileBytes(source)
            + if source.path.folder in FoldersOf(files) then 0 else FolderBytes(source.path.folder, record)
    ensures FoldersOf(files + [source]) == FoldersOf(files) + {source.path.folder}
    ensures TotalSize(files + [source]) == TotalSize(files) + source.size
  {
    assert (files + [source])[..|files|] == files;
    FoldersOfAppend(files, [source]);
    assert FoldersOf([source]) == {source.path.folder};
    FoldersBytesWith(FoldersOf(files), source.path.folder, record);
  }

  lemma {:induction false} BoundMonotone(a: seq<PackSource>, b: seq<PackSource>, record: nat)
    ensures Bound(a, record) <= Bound(a + b, record) && Bound(b, record) <= Bound(a + b, record)
  {
    BoundOfAppend(a, b, record);
    FoldersBytesMonotone(FoldersOf(a) * FoldersOf(b), FoldersOf(a), record);
    FoldersBytesMonotone(FoldersOf(a) * FoldersOf(b), FoldersOf(b), record);
  }

  lemma {:induction false} MultisetWithout(files: seq<PackSource>, i: nat)
    requires i < |files|
    ensures multiset(files[..i] + files[i + 1..]) == multiset(files) - multiset{files[i]}
  {
    assert files == files[..i] + [files[i]] + files[i + 1..];
  }

  lemma {:induction false} SizesOfMiddle(files: seq<PackSource>, i: nat)
    requires i < |files|
    ensures var rest := files[..i] + files[i + 1..];
            FilesBytes(files) == FilesBytes(rest) + FileBytes(files[i])
            && TotalSize(files) == TotalSize(rest) + files[i].size
  {
    var a, b := files[..i], files[i + 1..];
    assert files == a + [files[i]] + b;
    SizesOfAppend(a + [files[i]], b);
    SizesOfAppend(a, [files[i]]);
    SizesOfAppend(a, b);
    assert [files[i]][..0] == [];
  }

  lemma {:induction false} SizesIgnoreOrder(a: seq<PackSource>, b: seq<PackSource>)
    requires multiset(a) == multiset(b)
    ensures FilesBytes(a) == FilesBytes(b) && TotalSize(a) == TotalSize(b)
    decreases |a|
  {
    if a == [] {
      assert |multiset(b)| == 0;
    } else {
      var last := a[|a| - 1];
      assert last in multiset(b);
      var i :| 0 <= i < |b| && b[i] == last;
      MultisetWithout(b, i);
      MultisetWithout(a, |a| - 1);
      assert a[..|a| - 1] + a[|a|..] == a[..|a| - 1];
      SizesIgnoreOrder(a[..|a| - 1], b[..i] + b[i + 1..]);
      SizesOfMiddle(b, i);
    }
  }

  /** The bound reads no order: permuted files give the same one. */
  lemma {:induction false} BoundIgnoresOrder(a: seq<PackSource>, b: seq<PackSource>, record: nat)
    requires multiset(a) == multiset(b)
    ensures Bound(a, record) == Bound(b, record)
  {
    SizesIgnoreOrder(a, b);
    assert forall source :: source in a <==> source in multiset(a);
    assert forall source :: source in b <==> source in multiset(b);
    assert FoldersOf(a) == FoldersOf(b);
  }
}
