/**
 * Writing a planned BSA: files keep their smaller form, the first file for a name wins, and the cap is never passed.
 */
module ArchiveWriting {
  import opened ArchivePlan
  import opened ArchiveSplit
  import opened ArchiveSplitLaws

  /** The bytes of the original-size prefix every compressed file carries. */
  const PREFIX := 4

  /** The bytes a file is stored in: compressed with its prefix when that is fewer, and otherwise as it is. */
  function SmallerStored(size: nat, packed: nat): (stored: nat)
    ensures stored <= size && (stored == size || stored == packed + PREFIX)
    ensures packed + PREFIX < size ==> stored == packed + PREFIX
  {
    if packed + PREFIX < size then packed + PREFIX else size
  }

  type Directory = map<string, nat>
  type Tes4Archive = map<string, Directory>

  /** One keyed file: its directory and name as stored, and the bytes it is stored in. */
  datatype Keyed = Keyed(directory: string, name: string, stored: nat)

  function WithFile(directory: Directory, name: string, stored: nat): Directory {
    directory[name := stored]
  }

  function Insert(archive: Tes4Archive, file: Keyed): Tes4Archive {
    if file.directory in archive then
      if file.name in archive[file.directory] then archive
      else archive[file.directory := WithFile(archive[file.directory], file.name, file.stored)]
    else archive[file.directory := map[file.name := file.stored]]
  }

  function Grouped(files: seq<Keyed>): Tes4Archive {
    if files == [] then map[] else Insert(Grouped(files[..|files| - 1]), files[|files| - 1])
  }

  /** Groups keyed files by directory; the first file for a name wins. */
  method GroupFiles(files: seq<Keyed>) returns (archive: Tes4Archive)
    ensures archive == Grouped(files)
  {
    archive := map[];
    for i := 0 to |files|
      invariant archive == Grouped(files[..i])
    {
      var file := files[i];
      assert files[..i + 1][..i] == files[..i];
      if file.directory in archive {
        if file.name !in archive[file.directory] {
          archive := archive[file.directory := WithFile(archive[file.directory], file.name, file.stored)];
        }
      } else {
        archive := archive[file.directory := map[file.name := file.stored]];
      }
    }
    assert files[..|files|] == files;
  }

  /** The first file for a name is the one stored, and nothing else is. */
  lemma {:induction false} FirstNameWins(files: seq<Keyed>, directory: string, name: string)
    ensures var a := Grouped(files);
            && ((directory in a && name in a[directory])
                <==> exists i :: 0 <= i < |files| && files[i].directory == directory && files[i].name == name)
            && (directory in a && name in a[directory] ==>
                  exists i :: 0 <= i < |files| && files[i] == Keyed(directory, name, a[directory][name])
                              && forall j :: 0 <= j < i ==> files[j].directory != directory || files[j].name != name)
    decreases |files|
  {
    if files != [] {
      var front, last := files[..|files| - 1], files[|files| - 1];
      FirstNameWins(front, directory, name);
      assert forall i :: 0 <= i < |front| ==> front[i] == files[i];
      var b := Grouped(front);
      if directory in b && name in b[directory] {
        var i :| 0 <= i < |front| && front[i] == Keyed(directory, name, b[directory][name])
                 && forall j :: 0 <= j < i ==> front[j].directory != directory || front[j].name != name;
        assert files[i] == Keyed(directory, name, Grouped(files)[directory][name]);
      } else if last.directory == directory && last.name == name {
        assert files[|front|] == Keyed(directory, name, Grouped(files)[directory][name]);
      }
    }
  }

  // The written size: header, directory records and names, file records and names, then the data.

  ghost function NamesBytes(directory: Directory): nat {
    if directory == map[] then 0
    else
      var name :| name in directory;
      BSA_FILE_RECORD + |name| + 1 + directory[name] + NamesBytes(directory - {name})
  }

  ghost function DirectoriesBytes(archive: Tes4Archive, record: nat): nat {
    if archive == map[] then 0
    else
      var directory :| directory in archive;
      record + 1 + |directory| + 1 + NamesBytes(archive[directory]) + DirectoriesBytes(archive - {directory}, record)
  }

  ghost function WrittenSize(archive: Tes4Archive, record: nat): nat {
    BSA_HEADER + DirectoriesBytes(archive, record)
  }

  lemma {:induction false} NamesBytesWithout(directory: Directory, name: string)
    requires name in directory
    ensures NamesBytes(directory)
         == BSA_FILE_RECORD + |name| + 1 + directory[name] + NamesBytes(directory - {name})
    decreases |directory|
  {
    var picked :| picked in directory
      && NamesBytes(directory)
      == BSA_FILE_RECORD + |picked| + 1 + directory[picked] + NamesBytes(directory - {picked});
    if picked != name {
      NamesBytesWithout(directory - {picked}, name);
      NamesBytesWithout(directory - {name}, picked);
      assert directory - {picked} - {name} == directory - {name} - {picked};
    }
  }

  lemma {:induction false} DirectoriesBytesWithout(archive: Tes4Archive, directory: string, record: nat)
    requires directory in archive
    ensures DirectoriesBytes(archive, record)
         == record + 1 + |directory| + 1 + NamesBytes(archive[directory])
            + DirectoriesBytes(archive - {directory}, record)
    decreases |archive|
  {
    var picked :| picked in archive
      && DirectoriesBytes(archive, record)
      == record + 1 + |picked| + 1 + NamesBytes(archive[picked]) + DirectoriesBytes(archive - {picked}, record);
    if picked != directory {
      DirectoriesBytesWithout(archive - {picked}, directory, record);
      DirectoriesBytesWithout(archive - {directory}, picked, record);
      assert archive - {picked} - {directory} == archive - {directory} - {picked};
    }
  }

  /** One more file costs its record, name and bytes, and its directory's if that is new; a taken name costs nothing. */
  lemma {:induction false} InsertCost(archive: Tes4Archive, file: Keyed, record: nat)
    ensures WrittenSize(Insert(archive, file), record)
         == WrittenSize(archive, record)
            + (if file.directory in archive && file.name in archive[file.directory] then 0
               else BSA_FILE_RECORD + |file.name| + 1 + file.stored)
            + if file.directory in archive then 0 else record + 1 + |file.directory| + 1
  {
    var after := Insert(archive, file);
    DirectoriesBytesWithout(after, file.directory, record);
    assert after - {file.directory} == archive - {file.directory};
    if file.directory in archive {
      DirectoriesBytesWithout(archive, file.directory, record);
      NamesBytesWithout(after[file.directory], file.name);
      if file.name !in archive[file.directory] {
        assert after[file.directory] - {file.name} == archive[file.directory];
      }
    } else {
      NamesBytesWithout(after[file.directory], file.name);
      assert after[file.directory] - {file.name} == map[];
      assert archive - {file.directory} == archive;
    }
  }

  /** How names are stored: relative to the Mod Root and in `ba2`'s normal form, so never longer than the path's own. */
  datatype Naming = Naming(directory: Folder -> string, name: Path -> string)

  ghost predicate Shortens(naming: Naming) {
    && (forall folder :: |naming.directory(folder)| <= folder.bytes)
    && (forall path :: |naming.name(path)| <= path.nameBytes)
  }

  function KeyedOf(source: PackSource, naming: Naming, compressed: bool, packed: PackSource -> nat): Keyed {
    Keyed(naming.directory(source.path.folder), naming.name(source.path),
          if compressed then SmallerStored(source.size, packed(source)) else source.size)
  }

  function KeyedAll(files: seq<PackSource>, naming: Naming, compressed: bool, packed: PackSource -> nat): seq<Keyed> {
    if files == [] then []
    else KeyedAll(files[..|files| - 1], naming, compressed, packed)
         + [KeyedOf(files[|files| - 1], naming, compressed, packed)]
  }

  /** However well files compress and however names collide, the BSA is within the bound it was planned by. */
  lemma {:induction false} WrittenWithinBound(
    files: seq<PackSource>, naming: Naming, compressed: bool, packed: PackSource -> nat, record: nat)
    requires Shortens(naming)
    ensures var archive := Grouped(KeyedAll(files, naming, compressed, packed));
            && WrittenSize(archive, record) <= Bound(files, record)
            && forall folder :: folder in FoldersOf(files) ==> naming.directory(folder) in archive
    decreases |files|
  {
    if files == [] {
      assert FoldersOf(files) == {};
    } else {
      var front, last := files[..|files| - 1], files[|files| - 1];
      assert files == front + [last];
      WrittenWithinBound(front, naming, compressed, packed, record);
      BoundOfOneMore(front, last, record);
      var keyed := KeyedAll(front, naming, compressed, packed);
      var file := KeyedOf(last, naming, compressed, packed);
      assert (keyed + [file])[..|keyed|] == keyed;
      InsertCost(Grouped(keyed), file, record);
    }
  }

  /** Names as long as their paths and no two of them stored alike: nothing is saved in storing them. */
  ghost predicate StoresApart(files: seq<PackSource>, naming: Naming) {
    && (forall i :: 0 <= i < |files| ==>
          && |naming.directory(files[i].path.folder)| == files[i].path.folder.bytes
          && |naming.name(files[i].path)| == files[i].path.nameBytes)
    && (forall i, j :: 0 <= i < j < |files| ==>
          && (naming.directory(files[i].path.folder) == naming.directory(files[j].path.folder) ==>
                files[i].path.folder == files[j].path.folder)
          && !(files[i].path.folder == files[j].path.folder
               && naming.name(files[i].path) == naming.name(files[j].path)))
  }

  lemma {:induction false} KeyedAt(files: seq<PackSource>, naming: Naming, compressed: bool, packed: PackSource -> nat)
    ensures |KeyedAll(files, naming, compressed, packed)| == |files|
    ensures forall i :: 0 <= i < |files| ==>
              KeyedAll(files, naming, compressed, packed)[i] == KeyedOf(files[i], naming, compressed, packed)
  {
    if files != [] { KeyedAt(files[..|files| - 1], naming, compressed, packed); }
  }

  lemma {:induction false} LastIsStoredApart(files: seq<PackSource>, last: PackSource, naming: Naming,
                                             compressed: bool, packed: PackSource -> nat)
    requires StoresApart(files + [last], naming)
    ensures StoresApart(files, naming)
    ensures var a := Grouped(KeyedAll(files, naming, compressed, packed));
            var file := KeyedOf(last, naming, compressed, packed);
            && !(file.directory in a && file.name in a[file.directory])
            && (file.directory in a <==> last.path.folder in FoldersOf(files))
  {
    var all, keyed := files + [last], KeyedAll(files, naming, compressed, packed);
    var file := KeyedOf(last, naming, compressed, packed);
    assert forall i :: 0 <= i < |files| ==> all[i] == files[i];
    assert all[|files|] == last;
    KeyedAt(files, naming, compressed, packed);
    FirstNameWins(keyed, file.directory, file.name);
    DirectoryIsGrouped(keyed, file.directory);
    if last.path.folder in FoldersOf(files) {
      var i :| 0 <= i < |files| && files[i].path.folder == last.path.folder;
      assert keyed[i].directory == file.directory;
    }
  }

  lemma {:induction false} DirectoryIsGrouped(files: seq<Keyed>, directory: string)
    ensures directory in Grouped(files) <==> exists i :: 0 <= i < |files| && files[i].directory == directory
  {
    if files != [] {
      DirectoryIsGrouped(files[..|files| - 1], directory);
      assert forall i :: 0 <= i < |files| - 1 ==> files[..|files| - 1][i] == files[i];
    }
  }

  /** The bound is no wider than it must be: without compression it is reached by names that are all stored apart. */
  lemma {:induction false} BoundIsReached(files: seq<PackSource>, naming: Naming, packed: PackSource -> nat,
                                          record: nat)
    requires StoresApart(files, naming)
    ensures WrittenSize(Grouped(KeyedAll(files, naming, false, packed)), record) == Bound(files, record)
    decreases |files|
  {
    if files == [] {
      assert FoldersOf(files) == {};
    } else {
      var front, last := files[..|files| - 1], files[|files| - 1];
      assert files == front + [last];
      LastIsStoredApart(front, last, naming, false, packed);
      BoundIsReached(front, naming, packed, record);
      BoundOfOneMore(front, last, record);
      var keyed, file := KeyedAll(front, naming, false, packed), KeyedOf(last, naming, false, packed);
      assert (keyed + [file])[..|keyed|] == keyed;
      InsertCost(Grouped(keyed), file, record);
    }
  }

  /**
   * However sources are split and their Archives merged, no planned Archive is ever written past its cap: the
   * over-cap error is unreachable.
   */
  lemma {:induction false} WrittenWithinCap(
    sources: seq<PackSource>, settings: Settings, classify: Path -> FileType, textures: bool, incompressible: bool,
    archive: Archive, naming: Naming, compressed: bool, packed: PackSource -> nat)
    requires Sound(settings) && SplitAll(sources, settings, classify).Planned?
    requires archive in Merge(SplitAll(sources, settings, classify).partitions, textures, incompressible)
    requires archive.cap.Some? && Shortens(naming)
    ensures DirectoryRecord(archive.version).Some? && !PassesCap(archive, naming, compressed, packed)
  {
    MergedIsProper(sources, settings, classify, textures, incompressible, archive);
    WrittenWithinBound(archive.files, naming, compressed, packed, DirectoryRecord(archive.version).value);
  }

  /** What the check before writing measures a plan by. */
  ghost predicate PassesCap(plan: Archive, naming: Naming, compressed: bool, packed: PackSource -> nat)
    requires plan.cap.Some? && DirectoryRecord(plan.version).Some?
  {
    WrittenSize(Grouped(KeyedAll(plan.files, naming, compressed, packed)), DirectoryRecord(plan.version).value)
    > plan.cap.value
  }

  function Sum(chunks: seq<nat>): nat {
    if chunks == [] then 0 else Sum(chunks[..|chunks| - 1]) + chunks[|chunks| - 1]
  }

  /** A sink that only counts the bytes written to it. */
  class ByteCounter {
    var count: nat

    constructor ()
      ensures count == 0
    {
      count := 0;
    }

    method Write(length: nat)
      modifies this
      ensures count == old(count) + length
    {
      count := count + length;
    }
  }

  /** Measures a BSA by writing it into a counter, chunk by chunk, and refuses it past the cap. */
  method CheckSizeCap(archive: Tes4Archive, record: nat, chunks: seq<nat>, cap: nat) returns (refused: bool)
    requires Sum(chunks) == WrittenSize(archive, record)
    ensures refused <==> WrittenSize(archive, record) > cap
  {
    var counter := new ByteCounter();
    for i := 0 to |chunks|
      invariant counter.count == Sum(chunks[..i]) && fresh(counter)
    {
      assert chunks[..i + 1][..i] == chunks[..i];
      counter.Write(chunks[i]);
    }
    assert chunks[..|chunks|] == chunks;
    refused := counter.count > cap;
  }

  /** A planned BSA on its way out: keyed, grouped, and measured, as `chunks` of written bytes, against its cap. */
  method CheckPlanned(
    plan: Archive, naming: Naming, compressed: bool, packed: PackSource -> nat, chunks: seq<nat>)
    returns (archive: Tes4Archive, refused: bool)
    requires plan.cap.Some? && DirectoryRecord(plan.version).Some?
    requires Sum(chunks) == WrittenSize(Grouped(KeyedAll(plan.files, naming, compressed, packed)),
                                        DirectoryRecord(plan.version).value)
    ensures archive == Grouped(KeyedAll(plan.files, naming, compressed, packed))
    ensures refused <==> PassesCap(plan, naming, compressed, packed)
  {
    archive := GroupFiles(KeyedAll(plan.files, naming, compressed, packed));
    refused := CheckSizeCap(archive, DirectoryRecord(plan.version).value, chunks, plan.cap.value);
  }
}
