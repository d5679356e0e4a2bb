/** What a merge merges: which open Archives end as one, in which order and of which type, and which stay apart. */
module ArchiveMergeLaws {
  import opened ArchivePlan
  import opened ArchiveSplit
  import opened ArchiveSplitLaws

  /** Two lists of files that may share an Archive: below its limit together, and within its cap as one layout. */
  ghost predicate MayShare(archive: Archive, files: seq<PackSource>, others: seq<PackSource>) {
    && TotalSize(files) + TotalSize(others) < archive.limit
    && (archive.cap.Some? && DirectoryRecord(archive.version).Some? ==>
          Bound(files + others, DirectoryRecord(archive.version).value) <= archive.cap.value)
  }

  /** The three open Archives as a split leaves them: one of each type, capped all alike. */
  ghost predicate AreOpen(p: Partitions) {
    && p.standard.kind == Standard && p.incompressible.kind == Incompressible && p.textures.kind == Textures
    && (p.standard.cap.Some? ==> p.incompressible.cap.Some? && p.textures.cap.Some?)
  }

  function Kept(archive: Archive): seq<Archive> {
    if archive.files == [] then [] else [archive]
  }

  lemma {:induction false} NonEmptyOfConcat(a: seq<Archive>, b: seq<Archive>)
    ensures NonEmpty(a + b) == NonEmpty(a) + NonEmpty(b)
    decreases |b|
  {
    if b == [] {
      assert a + b == a && NonEmpty(a) + [] == NonEmpty(a);
    } else {
      assert (a + b)[..|a + b| - 1] == a + b[..|b| - 1];
      NonEmptyOfConcat(a, b[..|b| - 1]);
    }
  }

  lemma {:induction false} NonEmptyOfOne(archive: Archive)
    ensures NonEmpty([archive]) == Kept(archive)
  {
    assert [archive][..0] == [];
  }

  lemma {:induction false} NonEmptyOfThree(a: Archive, b: Archive, c: Archive)
    ensures NonEmpty([a, b, c]) == Kept(a) + Kept(b) + Kept(c)
  {
    assert [a, b, c] == [a] + [b] + [c];
    NonEmptyOfConcat([a] + [b], [c]);
    NonEmptyOfConcat([a], [b]);
    NonEmptyOfOne(a);
    NonEmptyOfOne(b);
    NonEmptyOfOne(c);
  }

  lemma {:induction false} NonEmptyKeepsAll(archives: seq<Archive>)
    requires forall i :: 0 <= i < |archives| ==> archives[i].files != []
    ensures NonEmpty(archives) == archives
    decreases |archives|
  {
    if archives != [] {
      NonEmptyKeepsAll(archives[..|archives| - 1]);
      assert archives == archives[..|archives| - 1] + [archives[|archives| - 1]];
    }
  }

  lemma {:induction false} MayAbsorb(archive: Archive, other: Archive)
    requires archive.cap.Some? ==> other.cap.Some?
    ensures CanAbsorb(archive, other) <==> MayShare(archive, archive.files, other.files)
  {
  }

  /** Joined Archives leave nothing of the second behind; Archives that are not joined both stay. */
  lemma {:induction false} MergedOpen(p: Partitions, textures: bool, incompressible: bool)
    requires AreOpen(p)
    ensures var i := incompressible && MayShare(p.standard, p.standard.files, p.incompressible.files);
            var files := if i then p.standard.files + p.incompressible.files else p.standard.files;
            var t := textures && MayShare(p.standard, files, p.textures.files);
            NonEmpty(MergeOpen(p, textures, incompressible))
            == Kept(p.standard.(files := if t then files + p.textures.files else files,
                                kind := if i then Incompressible else Standard))
               + (if i then [] else Kept(p.incompressible)) + (if t then [] else Kept(p.textures))
  {
    MayAbsorb(p.standard, p.incompressible);
    var s := if incompressible && CanAbsorb(p.standard, p.incompressible) then Absorbed(p.standard, p.incompressible)
             else p.standard;
    MayAbsorb(s, p.textures);
    var open := MergeOpen(p, textures, incompressible);
    assert open == [open[0], open[1], open[2]];
    NonEmptyOfThree(open[0], open[1], open[2]);
  }

  lemma {:induction false} SplitIsOpen(sources: seq<PackSource>, settings: Settings, classify: Path -> FileType)
    requires Sound(settings) && SplitAll(sources, settings, classify).Planned?
    ensures AreOpen(SplitAll(sources, settings, classify).partitions)
  {
    var p := SplitAll(sources, settings, classify).partitions;
    SplitIsProper(sources, settings, classify);
    assert p.Open(Standard) == p.standard && p.Open(Incompressible) == p.incompressible;
    assert p.Open(Textures) == p.textures;
  }

  /** What was closed holds at least the file it was opened for. */
  lemma {:induction false} ClosedHoldFiles(sources: seq<PackSource>, settings: Settings, classify: Path -> FileType,
                                           i: nat)
    requires Sound(settings) && SplitAll(sources, settings, classify).Planned?
    requires i < |SplitAll(sources, settings, classify).partitions.full|
    ensures SplitAll(sources, settings, classify).partitions.full[i].files != []
  {
    var p := SplitAll(sources, settings, classify).partitions;
    var kind := p.full[i].kind;
    SplitHolds(sources, settings, classify, kind);
    InPartition(p.full, i);
    var j :| 0 <= j < |Partition(p.full, kind)| && Partition(p.full, kind)[j] == p.full[i];
    var packed := Packed(p, kind);
    assert packed[j] == p.full[i] && j + 1 < |packed| && Chained(packed);
    assert ClosedBy(packed[j + 1 - 1], packed[j + 1]);
  }

  /**
   * The Archives of a merge: those that were full; then the open Standard one, with the open Incompressible and then
   * the open Texture files behind its own where that was asked for and they may share it; then what stays apart. Empty
   * ones are dropped, and only taking in the Incompressible one changes the Standard one's type.
   */
  lemma {:induction false} MergesWhatMayShare(sources: seq<PackSource>, settings: Settings, classify: Path -> FileType,
                                              textures: bool, incompressible: bool)
    requires Sound(settings) && SplitAll(sources, settings, classify).Planned?
    ensures var p := SplitAll(sources, settings, classify).partitions;
            var i := incompressible && MayShare(p.standard, p.standard.files, p.incompressible.files);
            var files := if i then p.standard.files + p.incompressible.files else p.standard.files;
            var t := textures && MayShare(p.standard, files, p.textures.files);
            Merge(p, textures, incompressible)
            == p.full
               + (Kept(p.standard.(files := if t then files + p.textures.files else files,
                                   kind := if i then Incompressible else Standard))
                  + (if i then [] else Kept(p.incompressible)) + (if t then [] else Kept(p.textures)))
  {
    var p := SplitAll(sources, settings, classify).partitions;
    SplitIsOpen(sources, settings, classify);
    MergedOpen(p, textures, incompressible);
    NonEmptyOfConcat(p.full, MergeOpen(p, textures, incompressible));
    forall i | 0 <= i < |p.full| ensures p.full[i].files != [] {
      ClosedHoldFiles(sources, settings, classify, i);
    }
    NonEmptyKeepsAll(p.full);
  }

  // What an Archive may hold, and in which container.

  /** The one type of file that an unmerged Archive holds. */
  function FileTypeOf(kind: ArchiveType): FileType {
    match kind
    case Standard => StandardFile
    case Incompressible => IncompressibleFile
    case Textures => TextureFile
  }

  /** Unless merging is asked for, no Archive holds files of two types. */
  lemma {:induction false} TypesStayApart(sources: seq<PackSource>, settings: Settings, classify: Path -> FileType,
                                          archive: Archive, source: PackSource)
    requires Sound(settings) && SplitAll(sources, settings, classify).Planned?
    requires archive in Merge(SplitAll(sources, settings, classify).partitions, false, false)
    requires source in archive.files
    ensures classify(source.path) == FileTypeOf(archive.kind)
  {
    var p := SplitAll(sources, settings, classify).partitions;
    SplitIsProper(sources, settings, classify);
    InNonEmpty(p.full + MergeOpen(p, false, false), archive);
    assert p.Open(Standard) == p.standard && p.Open(Incompressible) == p.incompressible;
    assert p.Open(Textures) == p.textures;
    assert AllOfKind(archive.files, archive.kind, classify);
    var i :| 0 <= i < |archive.files| && archive.files[i] == source;
  }

  /** And every source of a packable type is in one, whatever is merged. */
  lemma {:induction false} NothingIsLeftOut(sources: seq<PackSource>, settings: Settings, classify: Path -> FileType,
                                            textures: bool, incompressible: bool, source: PackSource)
    requires Sound(settings) && SplitAll(sources, settings, classify).Planned? && source in sources
    ensures source in FilesOf(Merge(SplitAll(sources, settings, classify).partitions, textures, incompressible))
       <==> (classify(source.path) == StandardFile || classify(source.path) == IncompressibleFile
             || classify(source.path) == TextureFile)
  {
    var merged := FilesOf(Merge(SplitAll(sources, settings, classify).partitions, textures, incompressible));
    if source in merged {
      MergeAddsNothing(sources, settings, classify, textures, incompressible, source);
    }
    if KindOf(classify(source.path)).Some? {
      var kind := KindOf(classify(source.path)).value;
      MergeKeepsSources(sources, settings, classify, textures, incompressible, kind);
      InOfKind(sources, source, kind, classify);
      InOfKind(merged, source, kind, classify);
    }
  }

  /** Every Archive is planned in its game's container, by the game's limit, and a BSA by the game's cap. */
  lemma {:induction false} ContainersOfMerge(sources: seq<PackSource>, settings: Settings, classify: Path -> FileType,
                                             textures: bool, incompressible: bool, archive: Archive)
    requires Sound(settings) && SplitAll(sources, settings, classify).Planned?
    requires archive in Merge(SplitAll(sources, settings, classify).partitions, textures, incompressible)
    ensures archive.limit == settings.archiveLimit
    ensures archive.version == if archive.kind != Textures || settings.textureFormat.None? then settings.format
                               else settings.textureFormat.value
    ensures archive.cap == if archive.version == Fo4 || archive.version == Fo4Dx then None else settings.sizeCap
    ensures TotalSize(archive.files) <= settings.archiveLimit || |archive.files| == 1
  {
    MergedIsProper(sources, settings, classify, textures, incompressible, archive);
  }

  // The order in which sources are read.

  /** The texts agree up to the first unit that tells them apart, if any does. */
  ghost predicate IsFirstDifference<T>(a: seq<T>, b: seq<T>, i: nat) {
    i <= |a| && i <= |b| && a[..i] == b[..i] && (i < |a| && i < |b| ==> a[i] != b[i])
  }

  lemma {:induction false} FirstDifference<T>(a: seq<T>, b: seq<T>) returns (i: nat)
    ensures IsFirstDifference(a, b, i) && (i == |a| || i == |b| || (i < |a| && i < |b|))
  {
    if a == [] || b == [] || a[0] != b[0] {
      i := 0;
    } else {
      var k := FirstDifference(a[1..], b[1..]);
      i := k + 1;
      assert a == [a[0]] + a[1..] && b == [b[0]] + b[1..];
      assert a[..i] == [a[0]] + a[1..][..k] && b[..i] == [b[0]] + b[1..][..k];
    }
  }

  lemma {:induction false} UnitOrder(a: seq<int>, b: seq<int>, i: nat)
    requires IsFirstDifference(a, b, i)
    ensures UnitsAtMost(a, b) <==> i == |a| || (i < |b| && a[i] < b[i])
    decreases i
  {
    if i > 0 {
      assert a[..i][0] == b[..i][0];
      assert a[1..][..i - 1] == a[..i][1..] && b[1..][..i - 1] == b[..i][1..];
      UnitOrder(a[1..], b[1..], i - 1);
    }
  }

  /** Paths are ordered component by component, and components by their first differing unit, shorter ones first. */
  lemma {:induction false} KeyOrder(a: seq<seq<int>>, b: seq<seq<int>>, i: nat)
    requires IsFirstDifference(a, b, i)
    ensures KeyAtMost(a, b) <==> i == |a| || (i < |b| && UnitsAtMost(a[i], b[i]))
    decreases i
  {
    if i > 0 {
      assert a[..i][0] == b[..i][0];
      assert a[1..][..i - 1] == a[..i][1..] && b[1..][..i - 1] == b[..i][1..];
      KeyOrder(a[1..], b[1..], i - 1);
    }
  }

  /** One source, if it has the key. */
  function IfKey(source: PackSource, key: seq<seq<int>>): seq<PackSource> {
    if SortKey(source.path) == key then [source] else []
  }

  /** The sources with one key, in the order they come. */
  function WithKey(sources: seq<PackSource>, key: seq<seq<int>>): seq<PackSource> {
    if sources == [] then [] else IfKey(sources[0], key) + WithKey(sources[1..], key)
  }

  lemma {:induction false} KeyIsAtMostItself(key: seq<seq<int>>)
    ensures KeyAtMost(key, key)
  {
    if key != [] { KeyIsAtMostItself(key[1..]); }
  }

  lemma {:induction false} WithKeyOfOneMore(first: PackSource, rest: seq<PackSource>, key: seq<seq<int>>)
    ensures WithKey([first] + rest, key) == IfKey(first, key) + WithKey(rest, key)
  {
    assert ([first] + rest)[1..] == rest;
  }

  lemma {:induction false} InsertIsStable(source: PackSource, sorted: seq<PackSource>, key: seq<seq<int>>)
    ensures WithKey(Insert(source, sorted), key) == IfKey(source, key) + WithKey(sorted, key)
    decreases |sorted|
  {
    if sorted == [] || KeyAtMost(SortKey(source.path), SortKey(sorted[0].path)) {
      WithKeyOfOneMore(source, sorted, key);
    } else {
      KeyIsAtMostItself(SortKey(source.path));
      WithKeyOfOneMore(sorted[0], Insert(source, sorted[1..]), key);
      WithKeyOfOneMore(sorted[0], sorted[1..], key);
      assert sorted == [sorted[0]] + sorted[1..];
      InsertIsStable(source, sorted[1..], key);
      assert IfKey(source, key) == [] || IfKey(sorted[0], key) == [];
    }
  }

  /** Sources the order does not tell apart keep the order they came in. */
  lemma {:induction false} SortIsStable(sources: seq<PackSource>, key: seq<seq<int>>)
    ensures WithKey(SortSources(sources), key) == WithKey(sources, key)
    decreases |sources|
  {
    if sources != [] {
      SortIsStable(sources[1..], key);
      InsertIsStable(sources[0], SortSources(sources[1..]), key);
    }
  }
}
