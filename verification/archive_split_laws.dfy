/** What a split and merge keep, when a split fails, and why every plan can be rebuilt. */
module ArchiveSplitLaws {
  import opened ArchivePlan
  import opened ArchiveSplit

  lemma {:induction false} UnitsAreTotal(a: seq<int>, b: seq<int>)
    ensures UnitsAtMost(a, b) || UnitsAtMost(b, a)
    decreases |a|
  {
    if a != [] && b != [] { UnitsAreTotal(a[1..], b[1..]); }
  }

  lemma {:induction false} KeysAreTotal(a: seq<seq<int>>, b: seq<seq<int>>)
    ensures KeyAtMost(a, b) || KeyAtMost(b, a)
    decreases |a|
  {
    if a != [] && b != [] {
      UnitsAreTotal(a[0], b[0]);
      KeysAreTotal(a[1..], b[1..]);
    }
  }

  lemma {:induction false} InsertSorts(source: PackSource, sorted: seq<PackSource>)
    requires Sorted(sorted)
    ensures Sorted(Insert(source, sorted)) && multiset(Insert(source, sorted)) == multiset(sorted) + multiset{source}
    decreases |sorted|
  {
    if sorted != [] && !KeyAtMost(SortKey(source.path), SortKey(sorted[0].path)) {
      KeysAreTotal(SortKey(source.path), SortKey(sorted[0].path));
      InsertSorts(source, sorted[1..]);
      assert sorted == [sorted[0]] + sorted[1..];
    }
  }

  /** The split reads its sources in order and loses none to the sort. */
  lemma {:induction false} SortSorts(sources: seq<PackSource>)
    ensures Sorted(SortSources(sources)) && multiset(SortSources(sources)) == multiset(sources)
    decreases |sources|
  {
    if sources != [] {
      SortSorts(sources[1..]);
      InsertSorts(sources[0], SortSources(sources[1..]));
      assert sources == [sources[0]] + sources[1..];
    }
  }

  /** The container and limits the settings give, whatever it holds. */
  predicate Fresh(archive: Archive, settings: Settings) {
    archive == New(settings, archive.kind).(files := archive.files)
  }

  /** A plan every file of which was accepted: within the limit or a single file, and within the cap. */
  ghost predicate Proper(archive: Archive, settings: Settings) {
    && Fresh(archive, settings)
    && TotalSize(archive.files) <= U64_MAX
    && (TotalSize(archive.files) <= archive.limit || |archive.files| == 1)
    && Fits(archive, archive.files)
  }

  /** `next` was opened because its first file no longer fit `archive`. */
  ghost predicate ClosedBy(archive: Archive, next: Archive) {
    archive.files != [] && next.files != [] && !CanAdd(archive, next.files[0])
  }

  ghost predicate Chained(archives: seq<Archive>) {
    forall i :: 0 < i < |archives| ==> ClosedBy(archives[i - 1], archives[i])
  }

  predicate AllOfKind(files: seq<PackSource>, kind: ArchiveType, classify: Path -> FileType) {
    forall i :: 0 <= i < |files| ==> KindOf(classify(files[i].path)) == Some(kind)
  }

  /** The Archives one type was packed into, the open one last. */
  function Packed(p: Partitions, kind: ArchiveType): seq<Archive> {
    Partition(p.full, kind) + [p.Open(kind)]
  }

  /** A type's Archives in the order they were opened: proper, chained, of that type alone. */
  ghost predicate Lined(archives: seq<Archive>, kind: ArchiveType, settings: Settings, classify: Path -> FileType) {
    && Chained(archives)
    && forall i :: 0 <= i < |archives| ==>
         Proper(archives[i], settings) && AllOfKind(archives[i].files, kind, classify)
  }

  /** What holds of one type's Archives after the sources `done` were placed. */
  ghost predicate Holds(
    p: Partitions, kind: ArchiveType, done: seq<PackSource>, settings: Settings, classify: Path -> FileType)
  {
    && p.Open(kind).kind == kind
    && FilesOf(Packed(p, kind)) == OfKind(done, kind, classify)
    && Lined(Packed(p, kind), kind, settings, classify)
  }

  lemma {:induction false} EmptyIsProper(settings: Settings, kind: ArchiveType)
    requires Sound(settings)
    ensures Proper(New(settings, kind), settings)
  {
    assert FoldersOf([]) == {};
  }

  lemma {:induction false} AddedIsProper(archive: Archive, source: PackSource, settings: Settings)
    requires Proper(archive, settings) && CanAdd(archive, source)
    ensures Proper(Added(archive, source), settings)
  {
    BoundOfOneMore(archive.files, source, 0);
  }

  lemma {:induction false} FilesOfLast(archives: seq<Archive>, last: Archive)
    ensures FilesOf(archives + [last]) == FilesOf(archives) + last.files
    ensures Partition(archives + [last], last.kind) == Partition(archives, last.kind) + [last]
    ensures forall kind :: kind != last.kind ==> Partition(archives + [last], kind) == Partition(archives, kind)
  {
    assert (archives + [last])[..|archives|] == archives;
  }

  lemma {:induction false} OfKindLast(done: seq<PackSource>, source: PackSource, kind: ArchiveType,
                                      classify: Path -> FileType)
    ensures OfKind(done + [source], kind, classify)
         == OfKind(done, kind, classify) + if KindOf(classify(source.path)) == Some(kind) then [source] else []
  {
    assert (done + [source])[..|done|] == done;
  }

  lemma {:induction false} GrownIsClosedBy(archive: Archive, open: Archive, source: PackSource)
    requires ClosedBy(archive, open)
    ensures ClosedBy(archive, Added(open, source))
  {
    assert Added(open, source).files[0] == open.files[0];
  }

  lemma {:induction false} ChainReplacesLast(closed: seq<Archive>, open: Archive, next: Archive)
    requires Chained(closed + [open])
    requires closed != [] ==> ClosedBy(closed[|closed| - 1], next)
    ensures Chained(closed + [next])
  {
    var before, after := closed + [open], closed + [next];
    forall i | 0 < i < |after| ensures ClosedBy(after[i - 1], after[i]) {
      if i < |closed| { assert ClosedBy(before[i - 1], before[i]); }
    }
  }

  lemma {:induction false} LinedGrows(
    closed: seq<Archive>, open: Archive, source: PackSource, kind: ArchiveType, settings: Settings,
    classify: Path -> FileType)
    requires Lined(closed + [open], kind, settings, classify) && CanAdd(open, source)
    requires KindOf(classify(source.path)) == Some(kind)
    ensures Lined(closed + [Added(open, source)], kind, settings, classify)
  {
    var before := closed + [open];
    assert before[|closed|] == open;
    assert Proper(open, settings) && AllOfKind(open.files, kind, classify);
    AddedIsProper(open, source, settings);
    if closed != [] {
      assert ClosedBy(before[|closed| - 1], before[|closed|]);
      GrownIsClosedBy(closed[|closed| - 1], open, source);
    }
    ChainReplacesLast(closed, open, Added(open, source));
    assert forall i :: 0 <= i < |closed| ==> before[i] == closed[i];
    AllOfKindGrows(open, source, kind, classify);
  }

  lemma {:induction false} AllOfKindGrows(open: Archive, source: PackSource, kind: ArchiveType,
                                          classify: Path -> FileType)
    requires AllOfKind(open.files, kind, classify) && KindOf(classify(source.path)) == Some(kind)
    ensures AllOfKind(Added(open, source).files, kind, classify)
  {
  }

  lemma {:induction false} LinedOpens(
    archives: seq<Archive>, source: PackSource, kind: ArchiveType, settings: Settings, classify: Path -> FileType)
    requires Sound(settings) && Lined(archives, kind, settings, classify)
    requires archives != [] && !CanAdd(archives[|archives| - 1], source)
    requires archives[|archives| - 1].kind == kind
    requires CanAdd(New(settings, kind), source) && KindOf(classify(source.path)) == Some(kind)
    ensures Lined(archives + [Added(New(settings, kind), source)], kind, settings, classify)
  {
    var last, next := archives[|archives| - 1], Added(New(settings, kind), source);
    var after := archives + [next];
    EmptyIsProper(settings, kind);
    AddedIsProper(New(settings, kind), source, settings);
    assert Proper(last, settings) && last.files != [];
    forall i | 0 < i < |after| ensures ClosedBy(after[i - 1], after[i]) {
      if i < |archives| { assert ClosedBy(archives[i - 1], archives[i]); }
    }
  }

  /** A source joins its type's open Archive. */
  lemma {:induction false} PlaceOpen(
    p: Partitions, kind: ArchiveType, done: seq<PackSource>, source: PackSource, settings: Settings,
    classify: Path -> FileType)
    requires Holds(p, kind, done, settings, classify) && KindOf(classify(source.path)) == Some(kind)
    requires CanAdd(p.Open(kind), source)
    ensures Holds(p.WithOpen(kind, Added(p.Open(kind), source)), kind, done + [source], settings, classify)
  {
    LinedGrows(Partition(p.full, kind), p.Open(kind), source, kind, settings, classify);
    PackedGrows(p, kind, source);
    OfKindLast(done, source, kind, classify);
  }

  lemma {:induction false} PackedGrows(p: Partitions, kind: ArchiveType, source: PackSource)
    ensures var q := p.WithOpen(kind, Added(p.Open(kind), source));
            && q.Open(kind) == Added(p.Open(kind), source)
            && Packed(q, kind) == Partition(p.full, kind) + [Added(p.Open(kind), source)]
            && FilesOf(Packed(q, kind)) == FilesOf(Packed(p, kind)) + [source]
  {
    var open, closed := p.Open(kind), Partition(p.full, kind);
    FilesOfLast(closed, open);
    FilesOfLast(closed, Added(open, source));
  }

  /** A source that closes its type's open Archive starts the next one. */
  lemma {:induction false} PlaceFresh(
    p: Partitions, kind: ArchiveType, done: seq<PackSource>, source: PackSource, settings: Settings,
    classify: Path -> FileType)
    requires Holds(p, kind, done, settings, classify) && KindOf(classify(source.path)) == Some(kind)
    requires Sound(settings) && !CanAdd(p.Open(kind), source) && CanAdd(New(settings, kind), source)
    ensures var q := p.(full := p.full + [p.Open(kind)]).WithOpen(kind, Added(New(settings, kind), source));
            Holds(q, kind, done + [source], settings, classify)
  {
    var open, next := p.Open(kind), Added(New(settings, kind), source);
    LinedOpens(Packed(p, kind), source, kind, settings, classify);
    FilesOfLast(p.full, open);
    FilesOfLast(Packed(p, kind), next);
    OfKindLast(done, source, kind, classify);
  }

  /** Placing a file of another type leaves a type's own Archives as they were. */
  lemma {:induction false} PackedElsewhere(p: Partitions, kind: ArchiveType, other: ArchiveType, archive: Archive)
    requires kind != other && p.Open(other).kind == other
    ensures var q := p.WithOpen(other, archive);
            Packed(q, kind) == Packed(p, kind) && q.Open(kind) == p.Open(kind)
    ensures var q := p.(full := p.full + [p.Open(other)]).WithOpen(other, archive);
            Packed(q, kind) == Packed(p, kind) && q.Open(kind) == p.Open(kind)
  {
    FilesOfLast(p.full, p.Open(other));
  }

  lemma {:induction false} HoldsElsewhere(
    p: Partitions, q: Partitions, kind: ArchiveType, done: seq<PackSource>, source: PackSource, settings: Settings,
    classify: Path -> FileType)
    requires Holds(p, kind, done, settings, classify) && KindOf(classify(source.path)) != Some(kind)
    requires Packed(q, kind) == Packed(p, kind) && q.Open(kind) == p.Open(kind)
    ensures Holds(q, kind, done + [source], settings, classify)
  {
    OfKindLast(done, source, kind, classify);
  }

  lemma {:induction false} PlaceElsewhere(
    p: Partitions, kind: ArchiveType, other: ArchiveType, done: seq<PackSource>, source: PackSource,
    settings: Settings, classify: Path -> FileType)
    requires Holds(p, kind, done, settings, classify) && kind != other && p.Open(other).kind == other
    requires KindOf(classify(source.path)) != Some(kind)
    ensures var next := Place(p, source, other, settings);
            next.Planned? ==> Holds(next.partitions, kind, done + [source], settings, classify)
  {
    var next := Place(p, source, other, settings);
    if next.Planned? {
      var empty := New(settings, other);
      PackedElsewhere(p, kind, other, Added(if CanAdd(p.Open(other), source) then p.Open(other) else empty, source));
      HoldsElsewhere(p, next.partitions, kind, done, source, settings, classify);
    }
  }

  lemma {:induction false} PlaceKeeps(
    p: Partitions, done: seq<PackSource>, source: PackSource, to: ArchiveType, settings: Settings,
    classify: Path -> FileType, kind: ArchiveType)
    requires Sound(settings) && KindOf(classify(source.path)) == Some(to)
    requires Holds(p, kind, done, settings, classify) && Holds(p, to, done, settings, classify)
    ensures var next := Place(p, source, to, settings);
            next.Planned? ==> Holds(next.partitions, kind, done + [source], settings, classify)
  {
    if kind != to {
      PlaceElsewhere(p, kind, to, done, source, settings, classify);
    } else if CanAdd(p.Open(to), source) {
      PlaceOpen(p, kind, done, source, settings, classify);
    } else if CanAdd(New(settings, to), source) {
      PlaceFresh(p, kind, done, source, settings, classify);
    }
  }

  lemma {:induction false} EmptyAlone(archive: Archive)
    requires archive.files == []
    ensures FilesOf([archive]) == [] && Chained([archive])
  {
    FilesOfLast([], archive);
    assert [] + [archive] == [archive];
  }

  lemma {:induction false} StartHolds(settings: Settings, classify: Path -> FileType, kind: ArchiveType)
    requires Sound(settings)
    ensures Holds(Start(settings), kind, [], settings, classify)
  {
    EmptyIsProper(settings, kind);
    EmptyAlone(New(settings, kind));
    assert Packed(Start(settings), kind) == [New(settings, kind)];
  }

  lemma {:induction false} UnpackedHolds(p: Partitions, kind: ArchiveType, done: seq<PackSource>, source: PackSource,
                                         settings: Settings, classify: Path -> FileType)
    requires Holds(p, kind, done, settings, classify) && KindOf(classify(source.path)).None?
    ensures Holds(p, kind, done + [source], settings, classify)
  {
    OfKindLast(done, source, kind, classify);
  }

  /** Every reachable set of partitions holds exactly the sources placed so far, type by type, in order. */
  lemma {:induction false} SplitHolds(
    sources: seq<PackSource>, settings: Settings, classify: Path -> FileType, kind: ArchiveType)
    requires Sound(settings)
    ensures var r := SplitAll(sources, settings, classify);
            r.Planned? ==> Holds(r.partitions, kind, sources, settings, classify)
    decreases |sources|
  {
    if sources == [] {
      StartHolds(settings, classify, kind);
    } else {
      var front, source := sources[..|sources| - 1], sources[|sources| - 1];
      assert sources == front + [source];
      SplitHolds(front, settings, classify, kind);
      var before, to := SplitAll(front, settings, classify), KindOf(classify(source.path));
      if before.Planned? && to.Some? {
        SplitHolds(front, settings, classify, to.value);
        PlaceKeeps(before.partitions, front, source, to.value, settings, classify, kind);
      } else if before.Planned? {
        UnpackedHolds(before.partitions, kind, front, source, settings, classify);
      }
    }
  }

  // When a split fails.

  /** A source its type's container could not hold even alone. */
  ghost predicate TooBig(source: PackSource, settings: Settings, classify: Path -> FileType) {
    var kind := KindOf(classify(source.path));
    && kind.Some?
    && !Fits(New(settings, kind.value), [source])
  }

  lemma {:induction false} TooBigIsRefused(archive: Archive, source: PackSource, settings: Settings,
                                           classify: Path -> FileType)
    requires Fresh(archive, settings) && KindOf(classify(source.path)) == Some(archive.kind)
    requires TooBig(source, settings, classify)
    ensures !CanAdd(archive, source)
  {
    var record := DirectoryRecord(archive.version);
    if record.Some? { BoundMonotone(archive.files, [source], record.value); }
  }

  lemma {:induction false} EmptyTakes(source: PackSource, kind: ArchiveType, settings: Settings,
                                      classify: Path -> FileType)
    requires KindOf(classify(source.path)) == Some(kind)
    ensures CanAdd(New(settings, kind), source) <==> !TooBig(source, settings, classify)
  {
    assert [] + [source] == [source];
  }

  lemma {:induction false} PlaceFails(
    p: Partitions, kind: ArchiveType, done: seq<PackSource>, source: PackSource, settings: Settings,
    classify: Path -> FileType)
    requires Sound(settings) && Holds(p, kind, done, settings, classify)
    requires KindOf(classify(source.path)) == Some(kind)
    ensures var next := Place(p, source, kind, settings);
            && (next.TooLarge? <==> TooBig(source, settings, classify))
            && (next.TooLarge? ==> next.source == source && settings.sizeCap == Some(next.cap))
  {
    var open, packed := p.Open(kind), Packed(p, kind);
    assert packed[|packed| - 1] == open;
    EmptyTakes(source, kind, settings, classify);
    if TooBig(source, settings, classify) { TooBigIsRefused(open, source, settings, classify); }
  }

  /** `i` is the first source, in order, too big to be packed alone. */
  ghost predicate FirstTooBig(sources: seq<PackSource>, i: nat, settings: Settings, classify: Path -> FileType) {
    && i < |sources| && TooBig(sources[i], settings, classify)
    && forall j :: 0 <= j < i ==> !TooBig(sources[j], settings, classify)
  }

  lemma {:induction false} NextFails(
    front: seq<PackSource>, source: PackSource, kind: ArchiveType, settings: Settings, classify: Path -> FileType)
    requires Sound(settings) && SplitAll(front, settings, classify).Planned?
    requires KindOf(classify(source.path)) == Some(kind)
    ensures var next := Place(SplitAll(front, settings, classify).partitions, source, kind, settings);
            && (next.TooLarge? <==> TooBig(source, settings, classify))
            && (next.TooLarge? ==> next.source == source && settings.sizeCap == Some(next.cap))
  {
    SplitHolds(front, settings, classify, kind);
    PlaceFails(SplitAll(front, settings, classify).partitions, kind, front, source, settings, classify);
  }

  ghost predicate SomeTooBig(sources: seq<PackSource>, settings: Settings, classify: Path -> FileType) {
    exists i :: 0 <= i < |sources| && TooBig(sources[i], settings, classify)
  }

  /** `source` is the first one too big. */
  ghost predicate IsFirstTooBig(
    source: PackSource, sources: seq<PackSource>, settings: Settings, classify: Path -> FileType)
  {
    exists i: nat :: FirstTooBig(sources, i, settings, classify) && sources[i] == source
  }

  lemma {:induction false} FirstOfOneMore(
    front: seq<PackSource>, last: PackSource, first: PackSource, settings: Settings, classify: Path -> FileType)
    ensures SomeTooBig(front + [last], settings, classify)
       <==> SomeTooBig(front, settings, classify) || TooBig(last, settings, classify)
    ensures IsFirstTooBig(first, front, settings, classify) ==>
              IsFirstTooBig(first, front + [last], settings, classify)
    ensures !SomeTooBig(front, settings, classify) && TooBig(last, settings, classify) ==>
              IsFirstTooBig(last, front + [last], settings, classify)
  {
    var all := front + [last];
    assert all[|front|] == last && forall j :: 0 <= j < |front| ==> front[j] == all[j];
    if i: nat :| FirstTooBig(front, i, settings, classify) && front[i] == first {
      assert FirstTooBig(all, i, settings, classify);
    }
    if !SomeTooBig(front, settings, classify) && TooBig(last, settings, classify) {
      assert FirstTooBig(all, |front|, settings, classify);
    }
  }

  /** A split fails exactly when some source is too big to be packed alone, and names the first of them. */
  lemma {:induction false} SplitFailsOnFirstTooBig(
    sources: seq<PackSource>, settings: Settings, classify: Path -> FileType)
    requires Sound(settings)
    ensures var r := SplitAll(sources, settings, classify);
            && (r.TooLarge? <==> SomeTooBig(sources, settings, classify))
            && (r.TooLarge? ==> settings.sizeCap == Some(r.cap) && IsFirstTooBig(r.source, sources, settings, classify))
    decreases |sources|
  {
    if sources != [] {
      var front, source := sources[..|sources| - 1], sources[|sources| - 1];
      SplitFailsOnFirstTooBig(front, settings, classify);
      var before, to := SplitAll(front, settings, classify), KindOf(classify(source.path));
      FirstOfOneMore(front, source, if before.TooLarge? then before.source else source, settings, classify);
      assert sources == front + [source];
      if before.Planned? && to.Some? { NextFails(front, source, to.value, settings, classify); }
    }
  }

  // How few Archives a type is packed into.

  lemma {:induction false} TotalOfFirst(archive: Archive)
    requires archive.files != []
    ensures archive.files[0].size <= TotalSize(archive.files)
  {
    assert archive.files == [archive.files[0]] + archive.files[1..];
    SizesOfAppend([archive.files[0]], archive.files[1..]);
    assert [archive.files[0]][..0] == [];
  }

  /** Two neighbours hold more than the limit between them when no cap closed the first. */
  lemma {:induction false} NeighboursPassLimit(archive: Archive, next: Archive)
    requires ClosedBy(archive, next) && archive.cap.None?
    requires TotalSize(archive.files) + TotalSize(next.files) <= U64_MAX
    ensures TotalSize(archive.files) + TotalSize(next.files) > archive.limit
  {
    TotalOfFirst(next);
  }

  lemma {:induction false} LastTwo(front: seq<Archive>, a: Archive, b: Archive)
    ensures TotalSize(FilesOf(front + [a, b]))
         == TotalSize(FilesOf(front)) + TotalSize(a.files) + TotalSize(b.files)
  {
    assert front + [a, b] == front + [a] + [b];
    FilesOfLast(front, a);
    FilesOfLast(front + [a], b);
    SizesOfAppend(FilesOf(front), a.files);
    SizesOfAppend(FilesOf(front) + a.files, b.files);
  }

  lemma {:induction false} LinedPrefix(archives: seq<Archive>, k: nat, kind: ArchiveType, settings: Settings,
                                       classify: Path -> FileType)
    requires Lined(archives, kind, settings, classify) && k <= |archives|
    ensures Lined(archives[..k], kind, settings, classify)
  {
    forall i | 0 < i < k ensures ClosedBy(archives[..k][i - 1], archives[..k][i]) {
      assert ClosedBy(archives[i - 1], archives[i]);
    }
  }

  function Times(n: nat, m: nat): nat {
    if n == 0 then 0 else Times(n - 1, m) + m
  }

  lemma {:induction false} TimesIsProduct(n: nat, limit: nat)
    ensures Times(n, limit + 1) == n * limit + n
  {
    if n > 0 {
      TimesIsProduct(n - 1, limit);
      assert (n - 1) * limit + limit == n * limit;
    }
  }

  lemma {:induction false} PassesLimits(total: nat, n: nat, limit: nat)
    requires total >= Times(n, limit + 1) && n > 0
    ensures n * limit < total
  {
    TimesIsProduct(n, limit);
  }

  lemma {:induction false} LastPair(
    archives: seq<Archive>, kind: ArchiveType, settings: Settings, classify: Path -> FileType)
    returns (front: seq<Archive>, before: nat)
    requires Lined(archives, kind, settings, classify) && settings.sizeCap.None? && |archives| >= 2
    requires TotalSize(FilesOf(archives)) <= U64_MAX
    ensures front == archives[..|archives| - 2] && Lined(front, kind, settings, classify)
    ensures before == TotalSize(FilesOf(front))
    ensures TotalSize(FilesOf(archives)) >= before + settings.archiveLimit + 1
  {
    var k := |archives|;
    var a, b := archives[k - 2], archives[k - 1];
    front, before := archives[..k - 2], TotalSize(FilesOf(archives[..k - 2]));
    assert archives == front + [a, b];
    LastTwo(front, a, b);
    assert ClosedBy(archives[k - 1 - 1], archives[k - 1]);
    NeighboursPassLimit(a, b);
    LinedPrefix(archives, k - 2, kind, settings, classify);
  }

  /** Without a cap, `k` Archives of a type hold more than `k / 2` times the limit, oversized files included. */
  lemma {:induction false} FewArchives(
    archives: seq<Archive>, total: nat, kind: ArchiveType, settings: Settings, classify: Path -> FileType)
    requires Lined(archives, kind, settings, classify) && settings.sizeCap.None?
    requires total == TotalSize(FilesOf(archives)) <= U64_MAX
    ensures PassesTimes(total, |archives|, settings.archiveLimit)
    decreases |archives|
  {
    if |archives| >= 2 {
      var front, before := LastPair(archives, kind, settings, classify);
      FewArchives(front, before, kind, settings, classify);
      OneMoreTime(total, before, |archives|, settings.archiveLimit);
    } else {
      NoTime(total, |archives|, settings.archiveLimit);
    }
  }

  ghost predicate PassesTimes(total: nat, count: nat, limit: nat) {
    total >= Times(count / 2, limit + 1)
  }

  lemma {:induction false} NoTime(total: nat, count: nat, limit: nat)
    requires count < 2
    ensures PassesTimes(total, count, limit)
  {
  }

  lemma {:induction false} OneMoreTime(total: nat, before: nat, count: nat, limit: nat)
    requires count >= 2 && total >= before + limit + 1 && PassesTimes(before, count - 2, limit)
    ensures PassesTimes(total, count, limit)
  {
  }

  lemma {:induction false} PackedPassesLimits(archives: seq<Archive>, files: seq<PackSource>, settings: Settings,
                                              classify: Path -> FileType, kind: ArchiveType)
    requires Lined(archives, kind, settings, classify) && settings.sizeCap.None? && |archives| >= 2
    requires FilesOf(archives) == files && TotalSize(files) <= U64_MAX
    ensures |archives| / 2 * settings.archiveLimit < TotalSize(files)
  {
    FewArchives(archives, TotalSize(files), kind, settings, classify);
    PassesLimits(TotalSize(files), |archives| / 2, settings.archiveLimit);
  }

  /** So a type split into `k >= 2` Archives without a cap held more than `k / 2` limits' worth of sources. */
  lemma {:induction false} FewArchivesPerType(sources: seq<PackSource>, settings: Settings, classify: Path -> FileType,
                                              kind: ArchiveType)
    requires Sound(settings) && settings.sizeCap.None? && TotalSize(sources) <= U64_MAX
    ensures var r := SplitAll(sources, settings, classify);
            r.Planned? && |Packed(r.partitions, kind)| >= 2 ==>
              |Packed(r.partitions, kind)| / 2 * settings.archiveLimit < TotalSize(OfKind(sources, kind, classify))
  {
    var r := SplitAll(sources, settings, classify);
    if r.Planned? && |Packed(r.partitions, kind)| >= 2 {
      SplitHolds(sources, settings, classify, kind);
      OfKindIsPart(sources, kind, classify);
      PackedPassesLimits(Packed(r.partitions, kind), OfKind(sources, kind, classify), settings, classify, kind);
    }
  }

  /** Every closed Archive was closed by the next one's first file, which broke the limit or the cap. */
  lemma {:induction false} ClosedForAReason(sources: seq<PackSource>, settings: Settings, classify: Path -> FileType,
                                            kind: ArchiveType, i: nat)
    requires Sound(settings) && TotalSize(sources) <= U64_MAX
    requires SplitAll(sources, settings, classify).Planned?
    requires i + 1 < |Packed(SplitAll(sources, settings, classify).partitions, kind)|
    ensures var archives := Packed(SplitAll(sources, settings, classify).partitions, kind);
            var a, b := archives[i], archives[i + 1];
            && a.files != [] && b.files != []
            && (TotalSize(a.files) + b.files[0].size > settings.archiveLimit || !Fits(a, a.files + [b.files[0]]))
  {
    SplitHolds(sources, settings, classify, kind);
    var archives := Packed(SplitAll(sources, settings, classify).partitions, kind);
    assert ClosedBy(archives[i + 1 - 1], archives[i + 1]);
    TotalOfFirst(archives[i + 1]);
    OfKindIsPart(sources, kind, classify);
    TwoOfMany(archives, i);
  }

  lemma {:induction false} OfKindIsPart(sources: seq<PackSource>, kind: ArchiveType, classify: Path -> FileType)
    ensures TotalSize(OfKind(sources, kind, classify)) <= TotalSize(sources)
    decreases |sources|
  {
    if sources != [] {
      OfKindIsPart(sources[..|sources| - 1], kind, classify);
      var kept := OfKind(sources[..|sources| - 1], kind, classify);
      SizesOfAppend(kept, [sources[|sources| - 1]]);
      assert kept + [] == kept && [sources[|sources| - 1]][..0] == [];
    }
  }

  lemma {:induction false} TwoOfMany(archives: seq<Archive>, i: nat)
    requires i + 1 < |archives|
    ensures TotalSize(archives[i].files) + TotalSize(archives[i + 1].files) <= TotalSize(FilesOf(archives))
    decreases |archives|
  {
    var k := |archives|;
    var front, last := archives[..k - 1], archives[k - 1];
    SizesOfAppend(FilesOf(front), last.files);
    if i + 2 < k {
      TwoOfMany(front, i);
    } else {
      SizesOfAppend(FilesOf(front[..k - 2]), front[k - 2].files);
    }
  }

  // Rebuilding.

  /** The prefixes of an accepted plan are accepted too. */
  lemma {:induction false} PrefixFits(archive: Archive, files: seq<PackSource>, rest: seq<PackSource>)
    requires Fits(archive, files + rest)
    ensures Fits(archive, files) && TotalSize(files) <= TotalSize(files + rest)
  {
    var record := DirectoryRecord(archive.version);
    if record.Some? { BoundMonotone(files, rest, record.value); }
    SizesOfAppend(files, rest);
  }

  lemma {:induction false} ReplayOneMore(start: Archive, files: seq<PackSource>, n: nat, before: Archive)
    requires 0 < n <= |files| && Replay(start, files[..n - 1]) == Some(before) && CanAdd(before, files[n - 1])
    ensures Replay(start, files[..n]) == Some(Added(before, files[n - 1]))
  {
    assert files[..n][..n - 1] == files[..n - 1];
  }

  /** Every prefix of a proper plan takes the next file: bounds and sizes only grow. */
  lemma {:induction false} PrefixTakesNext(archive: Archive, settings: Settings, n: nat)
    requires Proper(archive, settings) && 0 < n <= |archive.files|
    ensures var before := archive.(files := archive.files[..n - 1]);
            && CanAdd(before, archive.files[n - 1])
            && Added(before, archive.files[n - 1]) == archive.(files := archive.files[..n])
  {
    var files := archive.files;
    assert files[..n - 1] + [files[n - 1]] == files[..n];
    assert files == files[..n] + files[n..];
    PrefixFits(archive, files[..n], files[n..]);
    BoundOfOneMore(files[..n - 1], files[n - 1], 0);
  }

  lemma {:induction false} ReplayPrefix(archive: Archive, settings: Settings, n: nat)
    requires Proper(archive, settings) && n <= |archive.files|
    ensures Replay(New(settings, archive.kind), archive.files[..n]) == Some(archive.(files := archive.files[..n]))
  {
    if n > 0 {
      ReplayPrefix(archive, settings, n - 1);
      PrefixTakesNext(archive, settings, n);
      ReplayOneMore(New(settings, archive.kind), archive.files, n, archive.(files := archive.files[..n - 1]));
    }
  }

  /** A proper plan is rebuilt file by file from nothing but its type: no file is ever refused. */
  lemma {:induction false} ProperIsRebuilt(archive: Archive, settings: Settings)
    requires Proper(archive, settings)
    ensures Replay(New(settings, archive.kind), archive.files) == Some(archive)
  {
    ReplayPrefix(archive, settings, |archive.files|);
    assert archive.files[..|archive.files|] == archive.files;
  }

  // Merging.

  lemma {:induction false} AbsorbedIsProper(archive: Archive, other: Archive, settings: Settings)
    requires Sound(settings) && Proper(archive, settings) && Proper(other, settings)
    requires archive.kind != Textures && CanAbsorb(archive, other)
    ensures Proper(Absorbed(archive, other), settings) && Absorbed(archive, other).kind != Textures
  {
    SizesOfAppend(archive.files, other.files);
  }

  lemma {:induction false} FilesOfThree(a: Archive, b: Archive, c: Archive)
    ensures FilesOf([a, b, c]) == a.files + b.files + c.files
  {
    FilesOfLast([], a);
    FilesOfLast([a], b);
    FilesOfLast([a, b], c);
    assert [a, b, c] == [a, b] + [c] && [a, b] == [a] + [b] && [a] == [] + [a];
  }

  /** Either order in which a merge can leave the open Archives' files. */
  lemma {:induction false} MergeOpenFiles(p: Partitions, textures: bool, incompressible: bool)
    ensures var files := FilesOf(MergeOpen(p, textures, incompressible));
            || files == p.standard.files + p.incompressible.files + p.textures.files
            || files == p.standard.files + p.textures.files + p.incompressible.files
  {
    var open := MergeOpen(p, textures, incompressible);
    FilesOfThree(open[0], open[1], open[2]);
    assert open == [open[0], open[1], open[2]];
  }

  lemma {:induction false} MergeOpenIsProper(p: Partitions, textures: bool, incompressible: bool, settings: Settings,
                                             archive: Archive)
    requires Sound(settings) && p.standard.kind == Standard
    requires Proper(p.standard, settings) && Proper(p.incompressible, settings) && Proper(p.textures, settings)
    requires archive in MergeOpen(p, textures, incompressible) && archive.files != []
    ensures Proper(archive, settings)
  {
    if incompressible && CanAbsorb(p.standard, p.incompressible) {
      AbsorbedIsProper(p.standard, p.incompressible, settings);
      var s := Absorbed(p.standard, p.incompressible);
      if textures && CanAbsorb(s, p.textures) { AbsorbedIsProper(s, p.textures, settings); }
    } else if textures && CanAbsorb(p.standard, p.textures) {
      AbsorbedIsProper(p.standard, p.textures, settings);
    }
  }

  lemma {:induction false} OfKindAppend(
    a: seq<PackSource>, b: seq<PackSource>, kind: ArchiveType, classify: Path -> FileType)
    ensures OfKind(a + b, kind, classify) == OfKind(a, kind, classify) + OfKind(b, kind, classify)
    decreases |b|
  {
    if b == [] {
      assert a + b == a;
    } else {
      assert (a + b)[..|a + b| - 1] == a + b[..|b| - 1];
      OfKindAppend(a, b[..|b| - 1], kind, classify);
    }
  }

  lemma {:induction false} OfKindAll(
    files: seq<PackSource>, of: ArchiveType, kind: ArchiveType, classify: Path -> FileType)
    requires AllOfKind(files, of, classify)
    ensures OfKind(files, kind, classify) == if of == kind then files else []
    decreases |files|
  {
    if files != [] { OfKindAll(files[..|files| - 1], of, kind, classify); }
  }

  /** Full Archives hold one type each, so sorting their files by type sorts the Archives by type. */
  lemma {:induction false} OfKindOfFull(full: seq<Archive>, kind: ArchiveType, classify: Path -> FileType)
    requires forall i :: 0 <= i < |full| ==> AllOfKind(full[i].files, full[i].kind, classify)
    ensures OfKind(FilesOf(full), kind, classify) == FilesOf(Partition(full, kind))
    decreases |full|
  {
    if full != [] {
      var front, last := full[..|full| - 1], full[|full| - 1];
      OfKindOfFull(front, kind, classify);
      OfKindAppend(FilesOf(front), last.files, kind, classify);
      OfKindAll(last.files, last.kind, kind, classify);
      FilesOfLast(Partition(front, kind), last);
      assert FilesOf(Partition(front, kind)) + [] == FilesOf(Partition(front, kind));
      assert Partition(front, kind) + [] == Partition(front, kind);
    }
  }

  lemma {:induction false} InPartition(full: seq<Archive>, i: nat)
    requires i < |full|
    ensures full[i] in Partition(full, full[i].kind)
    decreases |full|
  {
    if i < |full| - 1 { InPartition(full[..|full| - 1], i); }
  }

  lemma {:induction false} NonEmptyKeepsFiles(archives: seq<Archive>)
    ensures FilesOf(NonEmpty(archives)) == FilesOf(archives)
    decreases |archives|
  {
    if archives != [] {
      var front, last := archives[..|archives| - 1], archives[|archives| - 1];
      NonEmptyKeepsFiles(front);
      FilesOfLast(NonEmpty(front), last);
      assert NonEmpty(front) + [] == NonEmpty(front);
    }
  }

  lemma {:induction false} InNonEmpty(archives: seq<Archive>, archive: Archive)
    requires archive in NonEmpty(archives)
    ensures archive in archives && archive.files != []
    decreases |archives|
  {
    var front, last := archives[..|archives| - 1], archives[|archives| - 1];
    if archive in NonEmpty(front) { InNonEmpty(front, archive); }
  }

  lemma {:induction false} FilesOfConcat(a: seq<Archive>, b: seq<Archive>)
    ensures FilesOf(a + b) == FilesOf(a) + FilesOf(b)
    decreases |b|
  {
    if b == [] {
      assert a + b == a;
    } else {
      assert (a + b)[..|a + b| - 1] == a + b[..|b| - 1];
      FilesOfConcat(a, b[..|b| - 1]);
    }
  }

  /** Every full or open Archive of a successful split is proper and of one type. */
  lemma {:induction false} SplitIsProper(sources: seq<PackSource>, settings: Settings, classify: Path -> FileType)
    requires Sound(settings) && SplitAll(sources, settings, classify).Planned?
    ensures var p := SplitAll(sources, settings, classify).partitions;
            && (forall i :: 0 <= i < |p.full| ==>
                  Proper(p.full[i], settings) && AllOfKind(p.full[i].files, p.full[i].kind, classify))
            && (forall kind :: p.Open(kind).kind == kind && Proper(p.Open(kind), settings)
                               && AllOfKind(p.Open(kind).files, kind, classify))
  {
    var p := SplitAll(sources, settings, classify).partitions;
    forall kind ensures p.Open(kind).kind == kind && Proper(p.Open(kind), settings)
                        && AllOfKind(p.Open(kind).files, kind, classify)
    {
      SplitHolds(sources, settings, classify, kind);
      assert Packed(p, kind)[|Packed(p, kind)| - 1] == p.Open(kind);
    }
    forall i | 0 <= i < |p.full|
      ensures Proper(p.full[i], settings) && AllOfKind(p.full[i].files, p.full[i].kind, classify)
    {
      var kind := p.full[i].kind;
      SplitHolds(sources, settings, classify, kind);
      InPartition(p.full, i);
      var j :| 0 <= j < |Partition(p.full, kind)| && Partition(p.full, kind)[j] == p.full[i];
      assert Packed(p, kind)[j] == p.full[i];
    }
  }

  /** After a successful split and any merge, every Archive is non-empty, and within the limits it was planned by. */
  lemma {:induction false} MergedIsProper(
    sources: seq<PackSource>, settings: Settings, classify: Path -> FileType, textures: bool, incompressible: bool,
    archive: Archive)
    requires Sound(settings) && SplitAll(sources, settings, classify).Planned?
    requires archive in Merge(SplitAll(sources, settings, classify).partitions, textures, incompressible)
    ensures archive.files != [] && Proper(archive, settings)
  {
    var p := SplitAll(sources, settings, classify).partitions;
    SplitIsProper(sources, settings, classify);
    assert p.Open(Standard) == p.standard && p.Open(Incompressible) == p.incompressible;
    assert p.Open(Textures) == p.textures;
    InNonEmpty(p.full + MergeOpen(p, textures, incompressible), archive);
    if archive !in p.full { MergeOpenIsProper(p, textures, incompressible, settings, archive); }
  }

  /** And it can be rebuilt for writing: no file is refused. */
  lemma {:induction false} EveryPlanIsRebuilt(
    sources: seq<PackSource>, settings: Settings, classify: Path -> FileType, textures: bool, incompressible: bool,
    archive: Archive)
    requires Sound(settings) && SplitAll(sources, settings, classify).Planned?
    requires archive in Merge(SplitAll(sources, settings, classify).partitions, textures, incompressible)
    ensures archive.files != [] && Replay(New(settings, archive.kind), archive.files) == Some(archive)
  {
    MergedIsProper(sources, settings, classify, textures, incompressible, archive);
    ProperIsRebuilt(archive, settings);
  }

  /** The Archives hold exactly the packable sources, each once, in sorted order within each type. */
  lemma {:induction false} MergeKeepsSources(
    sources: seq<PackSource>, settings: Settings, classify: Path -> FileType, textures: bool, incompressible: bool,
    kind: ArchiveType)
    requires Sound(settings) && SplitAll(sources, settings, classify).Planned?
    ensures var archives := Merge(SplitAll(sources, settings, classify).partitions, textures, incompressible);
            OfKind(FilesOf(archives), kind, classify) == OfKind(sources, kind, classify)
  {
    var p := SplitAll(sources, settings, classify).partitions;
    var open := MergeOpen(p, textures, incompressible);
    SplitIsProper(sources, settings, classify);
    SplitHolds(sources, settings, classify, kind);
    OpenFilesOfKind(p, textures, incompressible, kind, classify);
    NonEmptyKeepsFiles(p.full + open);
    FilesOfConcat(p.full, open);
    OfKindAppend(FilesOf(p.full), FilesOf(open), kind, classify);
    OfKindOfFull(p.full, kind, classify);
    FilesOfLast(Partition(p.full, kind), p.Open(kind));
  }

  lemma {:induction false} OpenFilesOfKind(
    p: Partitions, textures: bool, incompressible: bool, kind: ArchiveType, classify: Path -> FileType)
    requires forall k :: AllOfKind(p.Open(k).files, k, classify)
    ensures OfKind(FilesOf(MergeOpen(p, textures, incompressible)), kind, classify) == p.Open(kind).files
  {
    assert p.Open(Standard) == p.standard && p.Open(Incompressible) == p.incompressible;
    assert p.Open(Textures) == p.textures;
    MergeOpenFiles(p, textures, incompressible);
    var s, i, t := p.standard.files, p.incompressible.files, p.textures.files;
    OfKindOfThree(s, Standard, i, Incompressible, t, Textures, kind, classify);
    OfKindOfThree(s, Standard, t, Textures, i, Incompressible, kind, classify);
  }

  lemma {:induction false} OfKindOfThree(
    a: seq<PackSource>, ka: ArchiveType, b: seq<PackSource>, kb: ArchiveType, c: seq<PackSource>, kc: ArchiveType,
    kind: ArchiveType, classify: Path -> FileType)
    requires AllOfKind(a, ka, classify) && AllOfKind(b, kb, classify) && AllOfKind(c, kc, classify)
    requires ka != kb && kb != kc && ka != kc
    ensures OfKind(a + b + c, kind, classify) == if kind == ka then a else if kind == kb then b else c
  {
    OfKindAppend(a + b, c, kind, classify);
    OfKindAppend(a, b, kind, classify);
    OfKindAll(a, ka, kind, classify);
    OfKindAll(b, kb, kind, classify);
    OfKindAll(c, kc, kind, classify);
    OneOfThree(ka, kb, kc, kind);
    OnePart(a, b, c, OfKind(a, kind, classify), OfKind(b, kind, classify), OfKind(c, kind, classify),
            kind == ka, kind == kb);
  }

  lemma {:induction false} OnePart(a: seq<PackSource>, b: seq<PackSource>, c: seq<PackSource>, x: seq<PackSource>,
                                   y: seq<PackSource>, z: seq<PackSource>, first: bool, second: bool)
    requires !(first && second)
    requires x == (if first then a else []) && y == (if second then b else [])
    requires z == (if !first && !second then c else [])
    ensures x + y + z == if first then a else if second then b else c
  {
  }

  lemma {:induction false} OneOfThree(ka: ArchiveType, kb: ArchiveType, kc: ArchiveType, kind: ArchiveType)
    requires ka != kb && kb != kc && ka != kc
    ensures kind == ka || kind == kb || kind == kc
  {
  }

  /** And nothing else: every file an Archive holds was offered and is of a packable type. */
  lemma {:induction false} MergeAddsNothing(
    sources: seq<PackSource>, settings: Settings, classify: Path -> FileType, textures: bool, incompressible: bool,
    source: PackSource)
    requires Sound(settings) && SplitAll(sources, settings, classify).Planned?
    requires source in FilesOf(Merge(SplitAll(sources, settings, classify).partitions, textures, incompressible))
    ensures KindOf(classify(source.path)).Some? && source in sources
  {
    var p := SplitAll(sources, settings, classify).partitions;
    SplitIsProper(sources, settings, classify);
    NonEmptyKeepsFiles(p.full + MergeOpen(p, textures, incompressible));
    FilesOfConcat(p.full, MergeOpen(p, textures, incompressible));
    if source in FilesOf(p.full) {
      InFull(p.full, source, classify);
    } else {
      InOpen(p, textures, incompressible, source, classify);
    }
    var kind := KindOf(classify(source.path)).value;
    MergeKeepsSources(sources, settings, classify, textures, incompressible, kind);
    InOfKind(FilesOf(Merge(p, textures, incompressible)), source, kind, classify);
    InOfKind(sources, source, kind, classify);
  }

  lemma {:induction false} InOpen(p: Partitions, textures: bool, incompressible: bool, source: PackSource,
                                  classify: Path -> FileType)
    requires forall k :: AllOfKind(p.Open(k).files, k, classify)
    requires source in FilesOf(MergeOpen(p, textures, incompressible))
    ensures KindOf(classify(source.path)).Some?
  {
    assert p.Open(Standard) == p.standard && p.Open(Incompressible) == p.incompressible;
    assert p.Open(Textures) == p.textures;
    MergeOpenFiles(p, textures, incompressible);
    assert source in p.standard.files || source in p.incompressible.files || source in p.textures.files;
  }

  lemma {:induction false} InFull(full: seq<Archive>, source: PackSource, classify: Path -> FileType)
    requires forall i :: 0 <= i < |full| ==> AllOfKind(full[i].files, full[i].kind, classify)
    requires source in FilesOf(full)
    ensures KindOf(classify(source.path)).Some?
    decreases |full|
  {
    if source !in full[|full| - 1].files { InFull(full[..|full| - 1], source, classify); }
  }

  lemma {:induction false} InOfKind(
    sources: seq<PackSource>, source: PackSource, kind: ArchiveType, classify: Path -> FileType)
    ensures source in OfKind(sources, kind, classify)
       <==> source in sources && KindOf(classify(source.path)) == Some(kind)
    decreases |sources|
  {
    if sources != [] {
      InOfKind(sources[..|sources| - 1], source, kind, classify);
      assert sources == sources[..|sources| - 1] + [sources[|sources| - 1]];
    }
  }
}
