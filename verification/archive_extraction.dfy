/** The second half: publish the won entries, clean up the source, and report exactly what was done. */
module ArchiveExtraction {
  import opened ArchivePreflight
  import opened ArchiveStaging
  import opened ArchiveWinners
  import opened Attempts
  import opened DurableDisk
  import opened GamePaths
  import opened Publication
  import opened StandingPaths

  datatype ExtractionFailure = ExtractionFailed | MergeFailed | SourceCleanupFailed | InsufficientCapacity

  /** How far one attempt got. */
  datatype Progress = Progress(merging: bool, committed: bool)

  datatype Step = Done | Shortage | Stopped

  /** Publishes one won entry where there is room for it. */
  method PublishEntry(entry: string, receipt: Receipt, entries: seq<Entry>, source: Source, world: World,
                      registry: Registry)
    returns (state: State, ghost change: seq<Change>)
    requires receipt.target == None && receipt.index < |registry.artifacts|
    requires !registry.artifacts[receipt.index].committed
    requires IsPayload(registry.artifacts[receipt.index].bytes, entry, entries, source, world)
    modifies registry`artifacts, registry.disk
    ensures registry.disk.quiet ==> old(registry.disk.quiet)
    ensures IsRecorded(old(RecordOf(registry.disk)), RecordOf(registry.disk), change)
    ensures if state == NotPublished then change == []
            else |change| == 1 && IsMerge(change[0], entry, entries, source, world)
    ensures state != NotPublished ==> IsFree(source.target(entry), old(registry.disk.files).Keys, world.fold)
    ensures registry.disk.alone && state != NotPublished ==>
              registry.disk.files.Keys == old(registry.disk.files).Keys + {source.target(entry)}
    ensures registry.disk.quiet ==> registry.disk.files.Keys <= old(registry.disk.files).Keys + {source.target(entry)}
    ensures registry.disk.quiet && !registry.cleaned ==>
              IsFree(source.target(entry), old(registry.disk.files).Keys, world.fold) ==> state == PublishedAndReleased
    ensures |registry.artifacts| == |old(registry.artifacts)|
    ensures forall k :: 0 <= k < |registry.artifacts| && k != receipt.index ==>
              registry.artifacts[k] == old(registry.artifacts)[k]
  {
    var disk := registry.disk;
    ghost var before := disk.changes;
    var fails := disk.Fails();
    if fails { return NotPublished, []; }
    var free := PrepareMergeTarget(source.target(entry), disk.files.Keys, world.fold);
    if !free { return NotPublished, []; }
    StandingBlocksItself(source.target(entry), disk.files.Keys, world.fold);
    state := registry.Publish(receipt, source.target(entry), NoReplace);
    change := if state == NotPublished then [] else [disk.changes[|before|]];
    if change != [] { ReplayedOneMore(old(disk.files), [], change[0]); }
  }

  /** What is still staged stays so while another entry's artifact changes. */
  lemma {:induction false} StillStaged(staged: map<string, Receipt>, entry: string, before: seq<Artifact>,
                                       after: seq<Artifact>, entries: seq<Entry>, source: Source, world: World)
    requires IsStaged(staged, before, entries, source, world) && entry in staged
    requires |after| == |before|
    requires forall k :: 0 <= k < |after| && k != staged[entry].index ==> after[k] == before[k]
    ensures IsStaged(staged - {entry}, after, entries, source, world)
  {
    var left := staged - {entry};
    forall name | name in left
      ensures left[name].target == None && left[name].index < |after| && !after[left[name].index].committed
      ensures IsPayload(after[left[name].index].bytes, name, entries, source, world)
    {
      assert left[name] == staged[name] && staged[name].index != staged[entry].index;
    }
  }

  lemma {:induction false} MergesGrow(changes: seq<Change>, change: Change, merged: seq<string>, entries: seq<Entry>,
                                      source: Source, world: World)
    requires |changes| < |merged| && AreMerges(changes, merged[..|changes|], entries, source, world)
    requires IsMerge(change, merged[|changes|], entries, source, world)
    ensures AreMerges(changes + [change], merged[..|changes| + 1], entries, source, world)
  {
    var fewer, more := merged[..|changes|], merged[..|changes| + 1];
    assert forall k :: 0 <= k < |changes| ==> more[k] == fewer[k];
  }

  /** One more publication recorded. */
  lemma {:induction false} MergeRecorded(start: Record, middle: Record, after: Record, merged: seq<Change>,
                                         change: seq<Change>, winners: seq<string>, entries: seq<Entry>, source: Source,
                                         world: World)
    returns (more: seq<Change>)
    requires IsRecorded(start, middle, merged) && IsRecorded(middle, after, change)
    requires |merged| < |winners| && AreMerges(merged, winners[..|merged|], entries, source, world)
    requires |change| == 1 && IsMerge(change[0], winners[|merged|], entries, source, world)
    ensures |more| == |merged| + 1 && IsRecorded(start, after, more)
    ensures AreMerges(more, winners[..|more|], entries, source, world)
  {
    more := merged + [change[0]];
    assert more == merged + change;
    RecordedInTurn(start, middle, after, merged, change);
    MergesGrow(merged, change[0], winners, entries, source, world);
  }

  lemma {:induction false} NoneRecorded(start: Record, middle: Record, after: Record, merged: seq<Change>)
    returns (more: seq<Change>)
    requires IsRecorded(start, middle, merged) && IsRecorded(middle, after, [])
    ensures more == merged && IsRecorded(start, after, more)
  {
    more := merged;
    RecordedInTurn(start, middle, after, merged, []);
    assert merged + [] == merged;
  }

  /** The next won entry published after those of `merged`, and taken from those still staged. */
  method PublishNext(plan: Plan, i: nat, left: map<string, Receipt>, entries: seq<Entry>, source: Source, world: World,
                     registry: Registry, ghost open: bool, ghost start: Record, ghost merged: seq<Change>)
    returns (state: State, rest: map<string, Receipt>, ghost more: seq<Change>, ghost stays: bool)
    requires |merged| == i < |plan.mergeEntries| && plan.mergeEntries[i] in left
    requires IsStaged(left, registry.artifacts, entries, source, world)
    requires IsRecorded(start, RecordOf(registry.disk), merged)
    requires AreMerges(merged, plan.mergeEntries[..i], entries, source, world)
    requires open ==> IsOpen(plan, i, left.Keys, source, registry.disk.files.Keys, world.fold)
    requires registry.disk.alone ==> TookRoom(plan, i, source, start.files.Keys, registry.disk.files.Keys, world.fold)
    modifies registry`artifacts, registry.disk
    ensures registry.disk.quiet ==> old(registry.disk.quiet)
    ensures IsRecorded(start, RecordOf(registry.disk), more)
    ensures |more| == if state == NotPublished then i else i + 1
    ensures AreMerges(more, plan.mergeEntries[..|more|], entries, source, world)
    ensures IsStaged(rest, registry.artifacts, entries, source, world)
    ensures stays ==> IsOpen(plan, i + 1, rest.Keys, source, registry.disk.files.Keys, world.fold)
    ensures registry.disk.quiet && !registry.cleaned && open ==> stays && state == PublishedAndReleased
    ensures registry.disk.alone ==>
              TookRoom(plan, |more|, source, start.files.Keys, registry.disk.files.Keys, world.fold)
  {
    var entry := plan.mergeEntries[i];
    ghost var before, middle := registry.artifacts, RecordOf(registry.disk);
    ghost var change;
    state, change := PublishEntry(entry, left[entry], entries, source, world, registry);
    StillStaged(left, entry, before, registry.artifacts, entries, source, world);
    rest, stays := left - {entry}, open && registry.disk.quiet;
    ghost var after := RecordOf(registry.disk);
    if stays { NextIsOpen(plan, i, left.Keys, source, middle.files.Keys, after.files.Keys, world.fold); }
    if state == NotPublished {
      more := NoneRecorded(start, middle, after, merged);
    } else {
      more := MergeRecorded(start, middle, after, merged, change, plan.mergeEntries, entries, source, world);
      if registry.disk.alone { NextTookRoom(plan, i, source, start.files.Keys, middle.files.Keys, world.fold); }
    }
  }

  /** Publishes the won entries in order, stopping at the first that does not complete. */
  method PublishMerged(plan: Plan, staged: map<string, Receipt>, entries: seq<Entry>, source: Source, world: World,
                       registry: Registry)
    returns (progress: Progress, done: bool, ghost merged: seq<Change>)
    requires IsStaged(staged, registry.artifacts, entries, source, world)
    modifies registry`artifacts, registry.disk
    ensures registry.disk.quiet ==> old(registry.disk.quiet)
    ensures |merged| <= |plan.mergeEntries|
    ensures IsRecorded(old(RecordOf(registry.disk)), RecordOf(registry.disk), merged)
    ensures AreMerges(merged, plan.mergeEntries[..|merged|], entries, source, world)
    ensures progress.merging && (progress.committed <==> merged != [])
    ensures done ==> |merged| == |plan.mergeEntries|
    ensures registry.disk.quiet && !registry.cleaned ==>
              IsOpen(plan, 0, staged.Keys, source, old(registry.disk.files).Keys, world.fold) ==> done
    ensures registry.disk.alone ==>
              TookRoom(plan, |merged|, source, old(registry.disk.files).Keys, registry.disk.files.Keys, world.fold)
  {
    progress, merged := Progress(true, false), [];
    var disk := registry.disk;
    var left := staged;
    ghost var start, isOpen := RecordOf(disk), IsOpen(plan, 0, staged.Keys, source, disk.files.Keys, world.fold);
    ghost var open := isOpen;
    NothingTookRoom(plan, source, disk.files.Keys, world.fold);
    for i := 0 to |plan.mergeEntries|
      invariant |merged| == i && IsRecorded(start, RecordOf(disk), merged)
      invariant AreMerges(merged, plan.mergeEntries[..i], entries, source, world)
      invariant progress.merging && (progress.committed <==> merged != [])
      invariant IsStaged(left, registry.artifacts, entries, source, world)
      invariant disk.quiet ==> old(disk.quiet)
      invariant open ==> IsOpen(plan, i, left.Keys, source, disk.files.Keys, world.fold)
      invariant disk.quiet && !registry.cleaned && isOpen ==> open
      invariant disk.alone ==> TookRoom(plan, i, source, start.files.Keys, disk.files.Keys, world.fold)
    {
      if plan.mergeEntries[i] !in left { return progress, false, merged; }
      var state, rest, more, stays := PublishNext(plan, i, left, entries, source, world, registry, open, start, merged);
      left, open, merged := rest, stays, more;
      if state != NotPublished { progress := progress.(committed := true); }
      if state != PublishedAndReleased { return progress, false, merged; }
    }
    done := true;
  }

  // The attempt.

  ghost predicate IsUnobstructed(plan: Plan, source: Source, world: World, registry: Registry)
    reads registry, registry.disk
  {
    !registry.cleaned && IsReady(plan, source, world, registry.disk.files.Keys)
  }

  /** What an attempt published: a prefix of the plan's winners, in order, each with its own bytes. */
  ghost predicate MergedPrefix(merged: seq<Change>, plan: Plan, source: Source, world: World) {
    && |merged| <= |plan.mergeEntries|
    && (merged != [] ==> source.manifest.Some?
                         && AreMerges(merged, plan.mergeEntries[..|merged|], source.manifest.value, source, world))
  }

  method TryExtract(plan: Plan, source: Source, world: World, registry: Registry)
    returns (step: Step, progress: Progress, ghost merged: seq<Change>)
    modifies registry`artifacts, registry.disk
    ensures registry.disk.quiet ==> old(registry.disk.quiet)
    ensures IsRecorded(old(RecordOf(registry.disk)), RecordOf(registry.disk), merged)
    ensures MergedPrefix(merged, plan, source, world)
    ensures progress.committed <==> merged != []
    ensures progress.committed ==> progress.merging
    ensures step == Done ==> |merged| == |plan.mergeEntries|
    ensures step == Shortage <==> source.contained && source.manifest.Some? && !source.fits
    ensures step == Shortage ==> merged == [] && registry.artifacts == old(registry.artifacts)
    ensures step == Done || merged != [] ==> IsCurrent(plan, source, world)
    ensures registry.disk.alone ==>
              TookRoom(plan, |merged|, source, old(registry.disk.files).Keys, registry.disk.files.Keys, world.fold)
    ensures registry.disk.quiet && old(IsUnobstructed(plan, source, world, registry)) ==> step == Done
  {
    progress, merged := Progress(false, false), [];
    NothingTookRoom(plan, source, registry.disk.files.Keys, world.fold);
    if !source.contained || source.manifest.None? { return Stopped, progress, merged; }
    var entries := source.manifest.value;
    if !source.fits { return Shortage, progress, merged; }
    var wellFormed := CheckPlan(plan, world);
    if !wellFormed { return Stopped, progress, merged; }
    var staged, ok := StageEntries(entries, plan, source, world, registry);
    if !ok { return Stopped, progress, merged; }
    ghost var standing := registry.disk.files.Keys;
    if IsClear(plan, source, standing, world.fold) { ClearIsOpen(plan, staged.Keys, source, standing, world.fold); }
    var done;
    progress, done, merged := PublishMerged(plan, staged, entries, source, world, registry);
    step := if done then Done else Stopped;
  }

  /** Success published every winner; a failure is partial, and unsafe, exactly when it published any. */
  method ExtractStaged(plan: Plan, source: Source, world: World, registry: Registry)
    returns (outcome: Outcome<ExtractionFailure>, ghost merged: seq<Change>)
    modifies registry`artifacts, registry.disk
    ensures registry.disk.quiet ==> old(registry.disk.quiet)
    ensures IsRecorded(old(RecordOf(registry.disk)), RecordOf(registry.disk), merged)
    ensures MergedPrefix(merged, plan, source, world)
    ensures outcome.Succeeded? ==> |merged| == |plan.mergeEntries| && (outcome.committed <==> merged != [])
    ensures outcome.Failed? ==>
              && outcome.left == (if merged == [] then NoMutation else PartialOrUnknown)
              && (outcome.SafeToContinue() <==> merged == [])
              && (merged != [] ==> outcome.failure == MergeFailed)
              && outcome.failure != SourceCleanupFailed
              && (outcome.failure == InsufficientCapacity ==> registry.artifacts == old(registry.artifacts))
    ensures source.contained && source.manifest.Some? && !source.fits <==>
              outcome == Failed(InsufficientCapacity, NoMutation, true)
    ensures outcome.Succeeded? || merged != [] ==> IsCurrent(plan, source, world)
    ensures registry.disk.quiet && old(IsUnobstructed(plan, source, world, registry)) ==> outcome.Succeeded?
    ensures registry.disk.alone ==>
              TookRoom(plan, |merged|, source, old(registry.disk.files).Keys, registry.disk.files.Keys, world.fold)
  {
    var step, progress;
    step, progress, merged := TryExtract(plan, source, world, registry);
    match step
    case Done => outcome := Succeeded(progress.committed);
    case Shortage => outcome := Failed(InsufficientCapacity, NoMutation, true);
    case Stopped =>
      outcome := Failed(if progress.merging then MergeFailed else ExtractionFailed,
                        if progress.committed then PartialOrUnknown else NoMutation,
                        !progress.committed);
  }

  datatype Cleanup = Backup | Remove

  datatype Cleaned = CleanedUp | NotCleaned | Panicked

  /** What cleaning a source up does: it is removed, or renamed to its first free backup name. */
  ghost function CleanupOf(path: string, file: File, cleanup: Cleanup, standing: set<string>, fold: char -> char)
    : Change
  {
    if cleanup == Remove then Removed(path, file) else Renamed(path, FirstBackup(path, standing, fold), file)
  }

  /** The source Archive renamed or removed, or not: a panic may come before the change or after it. */
  method CleanUpSource(path: string, pinned: File, cleanup: Cleanup, fold: char -> char, disk: Disk)
    returns (cleaned: Cleaned, ghost change: seq<Change>)
    modifies disk
    ensures IsRecorded(old(RecordOf(disk)), RecordOf(disk), change)
    ensures change == [] || IsCleanup(change, path, pinned, cleanup)
    ensures disk.alone && change != [] ==>
              change == [CleanupOf(path, pinned, cleanup, old(disk.files).Keys, fold)]
    ensures cleaned == CleanedUp ==> change != []
    ensures cleaned == NotCleaned ==> change == []
    ensures disk.quiet ==> old(disk.quiet)
    ensures disk.quiet && old(disk.At(path)) == Some(pinned) ==> cleaned == CleanedUp
  {
    change := [];
    disk.Interfere();
    var panics := disk.Fails();
    if panics { return Panicked, change; }
    var fails := disk.Fails();
    if fails || disk.At(path) != Some(pinned) { return NotCleaned, change; }
    match cleanup {
      case Remove =>
        change := [Removed(path, pinned)];
        ReplayedOneMore(disk.files, [], change[0]);
        disk.Remove(path);
      case Backup =>
        var backup := FindBackup(path, disk.files.Keys, fold);
        change := [Renamed(path, backup, pinned)];
        ReplayedOneMore(disk.files, [], change[0]);
        disk.Rename(path, backup);
    }
    panics := disk.Fails();
    cleaned := if panics then Panicked else CleanedUp;
  }

  /** A removal or a backup, as asked, of exactly the pinned file. */
  ghost predicate IsCleanup(change: seq<Change>, path: string, file: File, cleanup: Cleanup) {
    && |change| == 1 && change[0].path == path && !change[0].Put? && change[0].file == file
    && (change[0].Removed? <==> cleanup == Remove)
  }

  /** After every winner is published: the source cleaned up, or a failure that says whether it is known to be whole. */
  method CleanUp(path: string, pinned: File, cleanup: Cleanup, committed: bool, fold: char -> char, disk: Disk)
    returns (outcome: Outcome<ExtractionFailure>, ghost change: seq<Change>)
    modifies disk
    ensures IsRecorded(old(RecordOf(disk)), RecordOf(disk), change)
    ensures change == [] || IsCleanup(change, path, pinned, cleanup)
    ensures disk.alone && change != [] ==>
              change == [CleanupOf(path, pinned, cleanup, old(disk.files).Keys, fold)]
    ensures outcome.Mutation() != NoMutation
    ensures outcome.Succeeded? ==> change != []
    ensures outcome.Failed? ==> outcome.failure == SourceCleanupFailed
    ensures outcome.Failed? && outcome.left == Committed ==> committed && change == [] && outcome.SafeToContinue()
    ensures outcome.Mutation() == PartialOrUnknown ==> !outcome.SafeToContinue()
    ensures disk.quiet ==> old(disk.quiet)
    ensures disk.quiet && old(disk.At(path)) == Some(pinned) ==> outcome.Succeeded?
  {
    var result;
    result, change := CleanUpSource(path, pinned, cleanup, fold, disk);
    match result
    case CleanedUp => outcome := Succeeded(true);
    case NotCleaned =>
      var readable: bool := *;
      var safe := committed && readable;
      outcome := Failed(SourceCleanupFailed, if safe then Committed else PartialOrUnknown, safe);
    case Panicked => outcome := Failed(SourceCleanupFailed, PartialOrUnknown, false);
  }

  /** Merging replaces nothing, so a file that stood before stands after. */
  lemma {:induction false} MergesKeep(files: map<string, File>, merged: seq<Change>, winners: seq<string>,
                                      entries: seq<Entry>, source: Source, world: World, path: string)
    requires AreMerges(merged, winners, entries, source, world) && path in files
    requires forall winner :: winner in winners ==> source.target(winner) != path
    ensures path in Replayed(files, merged) && Replayed(files, merged)[path] == files[path]
    decreases |merged|
  {
    if merged != [] {
      var n := |merged| - 1;
      assert IsMerge(merged[n], winners[n], entries, source, world);
      assert forall k :: 0 <= k < n ==> merged[..n][k] == merged[k] && winners[..n][k] == winners[k];
      MergesKeep(files, merged[..n], winners[..n], entries, source, world, path);
    }
  }

  /** An attempt's own source is still there, and still the same file, when its merges are done. */
  lemma {:induction false} SourceStays(plan: Plan, source: Source, world: World, files: map<string, File>,
                                       after: map<string, File>, merged: seq<Change>)
    requires MergedPrefix(merged, plan, source, world) && after == Replayed(files, merged)
    requires TookRoom(plan, |merged|, source, files.Keys, after.Keys, world.fold)
    requires plan.archive.path in files
    ensures plan.archive.path in after && after[plan.archive.path] == files[plan.archive.path]
  {
    var path := plan.archive.path;
    if merged != [] {
      var winners := plan.mergeEntries[..|merged|];
      forall winner | winner in winners ensures source.target(winner) != path {
        var k :| 0 <= k < |winners| && winners[k] == winner;
        assert IsFree(source.target(plan.mergeEntries[k]), files.Keys, world.fold);
        StandingBlocksItself(source.target(winner), files.Keys, world.fold);
      }
      MergesKeep(files, merged, winners, source.manifest.value, source, world, path);
    }
  }

  /** Where files stand after a plan was extracted whole and its source cleaned up. */
  ghost function PathsAfter(plan: Plan, source: Source, cleanup: Cleanup, standing: set<string>, fold: char -> char)
    : (after: set<string>)
  {
    var merged := standing + TargetsOf(plan.mergeEntries, source);
    (if cleanup == Remove then merged else merged + {FirstBackup(plan.archive.path, merged, fold)})
    - {plan.archive.path}
  }

  lemma {:induction false} PathsAreAfter(plan: Plan, source: Source, cleanup: Cleanup, fold: char -> char,
                                         start: set<string>, middle: map<string, File>, after: map<string, File>,
                                         pinned: File, cleaned: seq<Change>)
    requires TookRoom(plan, |plan.mergeEntries|, source, start, middle.Keys, fold)
    requires cleaned == [CleanupOf(plan.archive.path, pinned, cleanup, middle.Keys, fold)]
    requires after == Replayed(middle, cleaned)
    ensures after.Keys == PathsAfter(plan, source, cleanup, start, fold)
  {
    ReplayedOneMore(middle, [], cleaned[0]);
    assert plan.mergeEntries[..|plan.mergeEntries|] == plan.mergeEntries;
  }

  /** The second half of an attempt: its source cleaned up, once all its winners are published. */
  method CleanUpMerged(plan: Plan, source: Source, world: World, pinned: File, cleanup: Cleanup, committed: bool,
                       disk: Disk, ghost start: Record, ghost merged: seq<Change>)
    returns (outcome: Outcome<ExtractionFailure>, ghost cleaned: seq<Change>)
    requires IsRecorded(start, RecordOf(disk), merged) && MergedPrefix(merged, plan, source, world)
    requires |merged| == |plan.mergeEntries|
    requires plan.archive.path in start.files && start.files[plan.archive.path] == pinned
    requires disk.alone ==> TookRoom(plan, |merged|, source, start.files.Keys, disk.files.Keys, world.fold)
    modifies disk
    ensures (disk.quiet ==> old(disk.quiet)) && (disk.alone ==> old(disk.alone))
    ensures IsRecorded(start, RecordOf(disk), merged + cleaned)
    ensures cleaned == [] || IsCleanup(cleaned, plan.archive.path, pinned, cleanup)
    ensures outcome.Mutation() != NoMutation
    ensures outcome.Succeeded? ==> cleaned != [] && outcome.committed
    ensures outcome.Failed? ==> outcome.failure == SourceCleanupFailed
    ensures outcome.Failed? && outcome.left == Committed ==> committed && cleaned == [] && outcome.SafeToContinue()
    ensures outcome.Mutation() == PartialOrUnknown ==> !outcome.SafeToContinue()
    ensures disk.quiet && disk.alone ==> outcome.Succeeded?
    ensures disk.alone && cleaned != [] ==>
              disk.files.Keys == PathsAfter(plan, source, cleanup, start.files.Keys, world.fold)
  {
    ghost var middle := RecordOf(disk);
    if disk.alone { SourceStays(plan, source, world, start.files, middle.files, merged); }
    outcome, cleaned := CleanUp(plan.archive.path, pinned, cleanup, committed, world.fold, disk);
    RecordedInTurn(start, middle, RecordOf(disk), merged, cleaned);
    if disk.alone && cleaned != [] {
      PathsAreAfter(plan, source, cleanup, world.fold, start.files.Keys, middle.files, disk.files, pinned, cleaned);
    }
  }

  /**
   * Extraction's only entry point. The source keeps its name and bytes until every winner is published, and what the
   * attempt reports is true of the files.
   */
  method ExtractArchive(plan: Plan, source: Source, world: World, cleanup: Cleanup, registry: Registry)
    returns (outcome: Outcome<ExtractionFailure>, ghost merged: seq<Change>, ghost cleaned: seq<Change>)
    modifies registry`artifacts, registry.disk
    ensures registry.disk.quiet ==> old(registry.disk.quiet)
    ensures IsRecorded(old(RecordOf(registry.disk)), RecordOf(registry.disk), merged + cleaned)
    ensures MergedPrefix(merged, plan, source, world)
    ensures cleaned != [] ==>
              && |merged| == |plan.mergeEntries| && plan.archive.path in old(registry.disk.files)
              && IsCleanup(cleaned, plan.archive.path, old(registry.disk.files)[plan.archive.path], cleanup)
    ensures outcome.Succeeded? ==> |merged| == |plan.mergeEntries| && cleaned != [] && outcome.committed
    ensures outcome.Succeeded? || merged != [] || cleaned != [] ==> IsCurrent(plan, source, world)
    ensures outcome.Failed? && outcome.failure == InsufficientCapacity ==>
              && source.contained && source.manifest.Some? && !source.fits
              && outcome == Failed(InsufficientCapacity, NoMutation, true)
              && registry.artifacts == old(registry.artifacts)
    ensures registry.disk.quiet && plan.archive.path in old(registry.disk.files) ==>
              source.contained && source.manifest.Some? && !source.fits ==>
              outcome == Failed(InsufficientCapacity, NoMutation, true)
    ensures outcome.Mutation() == NoMutation ==> merged == [] && cleaned == []
    ensures outcome.Failed? && outcome.left == Committed ==>
              merged != [] && |merged| == |plan.mergeEntries| && cleaned == [] && outcome.SafeToContinue()
    ensures outcome.Mutation() == PartialOrUnknown ==> !outcome.SafeToContinue()
    ensures outcome.Failed? && outcome.failure == SourceCleanupFailed ==> |merged| == |plan.mergeEntries|
    ensures registry.disk.quiet && registry.disk.alone ==>
              old(IsUnobstructed(plan, source, world, registry)) && plan.archive.path in old(registry.disk.files) ==>
              outcome.Succeeded?
    ensures registry.disk.alone ==> IsClearUpTo(plan, |merged|, source, old(registry.disk.files).Keys, world.fold)
    ensures registry.disk.alone && cleaned != [] ==>
              registry.disk.files.Keys == PathsAfter(plan, source, cleanup, old(registry.disk.files).Keys, world.fold)
  {
    merged, cleaned := [], [];
    var disk := registry.disk;
    ghost var start := RecordOf(disk);
    NothingTookRoom(plan, source, disk.files.Keys, world.fold);
    var unpinned := disk.Fails();
    if unpinned || plan.archive.path !in disk.files {
      return Failed(ExtractionFailed, NoMutation, true), merged, cleaned;
    }
    var pinned := disk.files[plan.archive.path];
    outcome, merged := ExtractStaged(plan, source, world, registry);
    assert merged + [] == merged;
    if outcome.Failed? { return; }
    outcome, cleaned := CleanUpMerged(plan, source, world, pinned, cleanup, outcome.Mutation() == Committed, disk,
                                      start, merged);
  }

  // A preflight's plan, extracted.

  lemma {:induction false} DistinctOneMore(archive: Archive, entries: seq<string>, last: string, world: World)
    requires DistinctKeys(archive, entries, world)
    requires forall i :: 0 <= i < |entries| ==> Key(archive, entries[i], world) != Key(archive, last, world)
    ensures DistinctKeys(archive, entries + [last], world)
  {
  }

  lemma {:induction false} LastIsDistinct(archive: Archive, entries: seq<string>, entry: string, world: World)
    requires entries != [] && DistinctKeys(archive, entries, world) && entry in entries[..|entries| - 1]
    ensures Key(archive, entry, world) != Key(archive, entries[|entries| - 1], world)
  {
    var rest := entries[..|entries| - 1];
    var k :| 0 <= k < |rest| && rest[k] == entry;
    assert entries[k] == entry;
  }

  lemma {:induction false} FirstAreDistinct(archive: Archive, entries: seq<string>, world: World)
    requires entries != [] && DistinctKeys(archive, entries, world)
    ensures DistinctKeys(archive, entries[..|entries| - 1], world)
  {
  }

  lemma {:induction false} WinnersAreDistinct(plans: seq<Plan>, plan: Plan, entries: seq<string>, root: Root,
                                              world: World)
    requires DistinctKeys(plan.archive, entries, world)
    ensures DistinctKeys(plan.archive, Winning(plans, plan, entries, root, world), world)
    decreases |entries|
  {
    if entries != [] {
      var rest, last := entries[..|entries| - 1], entries[|entries| - 1];
      FirstAreDistinct(plan.archive, entries, world);
      WinnersAreDistinct(plans, plan, rest, root, world);
      var winning := WinningBefore(plans, plan, rest, root, world);
      forall i | 0 <= i < |winning| ensures Key(plan.archive, winning[i], world) != Key(plan.archive, last, world) {
        LastIsDistinct(plan.archive, entries, winning[i], world);
      }
      DistinctOneMore(plan.archive, winning, last, world);
      assert winning + [] == winning;
    }
  }

  lemma {:induction false} WinningBefore(plans: seq<Plan>, plan: Plan, entries: seq<string>, root: Root, world: World)
    returns (winning: seq<string>)
    ensures winning == Winning(plans, plan, entries, root, world)
    ensures forall i :: 0 <= i < |winning| ==> winning[i] in entries
  {
    winning := Winning(plans, plan, entries, root, world);
    WinningIsWhatWins(plans, plan, entries, root, world);
    assert forall i :: 0 <= i < |winning| ==> winning[i] in winning;
  }

  /** Where entries would go, in the existing casing of their game paths. */
  ghost predicate KeepsKeys(source: Source, plan: Plan, world: World) {
    forall entry :: entry in plan.entries ==>
      Folded(source.target(entry), world.fold) == Key(plan.archive, entry, world)
  }

  /** There is room for each winner; what stands where shadowed or loose entries would go is no matter. */
  ghost predicate WinnersAreFree(source: Source, plan: Plan, standing: set<string>, fold: char -> char) {
    forall entry :: entry in plan.mergeEntries ==> IsFree(source.target(entry), standing, fold)
  }

  /** Two winners of one Mod Root, whose merged game paths lie apart, are not in each other's way. */
  lemma {:induction false} ContestedAreApart(plans: seq<Plan>, plan: Plan, other: Plan, a: string, b: string,
                                             source: Source, sink: Source, root: Root, world: World)
    requires Antichain(Contested(plans, root, world)) && plan in plans && other in plans
    requires KeepsKeys(source, plan, world) && KeepsKeys(sink, other, world)
    requires a in plan.entries && Wins(plans, plan, a, root, world)
    requires b in other.entries && Wins(plans, other, b, root, world)
    requires Key(plan.archive, a, world) != Key(other.archive, b, world)
    ensures !Blocks(source.target(a), sink.target(b), world.fold)
  {
    WinnerIsContested(plans, plan, a, root, world);
    WinnerIsContested(plans, other, b, root, world);
  }

  lemma {:induction false} WinnerIsContested(plans: seq<Plan>, plan: Plan, entry: string, root: Root, world: World)
    requires plan in plans && entry in plan.entries && Wins(plans, plan, entry, root, world)
    ensures Key(plan.archive, entry, world) in Contested(plans, root, world)
  {
    var key := Key(plan.archive, entry, world);
    var i :| 0 <= i < |plans| && plans[i] == plan;
    var k :| 0 <= k < |plan.entries| && plan.entries[k] == entry;
    assert Provides(plans[i], key, world);
    InContested(plans, key, root, world);
  }

  /** One plan's winners leave each other room. */
  lemma {:induction false} FrozenWinnersAreClear(plans: seq<Plan>, plan: Plan, root: Root, world: World, source: Source,
                                                 standing: set<string>)
    requires plan in plans && Antichain(Contested(plans, root, world))
    requires DistinctKeys(plan.archive, plan.entries, world) && KeepsKeys(source, plan, world)
    requires WinnersAreFree(source, Frozen(plans, plan, root, world), standing, world.fold)
    ensures IsClear(Frozen(plans, plan, root, world), source, standing, world.fold)
  {
    var winners := Frozen(plans, plan, root, world).mergeEntries;
    WinnersAreDistinct(plans, plan, plan.entries, root, world);
    WinningIsWhatWins(plans, plan, plan.entries, root, world);
    forall i, j | 0 <= i < j < |winners|
      ensures !Blocks(source.target(winners[i]), source.target(winners[j]), world.fold)
    {
      assert winners[i] in winners && winners[j] in winners;
      ContestedAreApart(plans, plan, plan, winners[i], winners[j], source, source, root, world);
    }
  }

  /**
   * A frozen plan whose manifest has not changed passes extraction's checks, and its winners leave each other room;
   * with room for each of them, room to stage it and no failure, exactly its winners are published.
   */
  lemma {:induction false} FrozenPlanIsUnobstructed(plans: seq<Plan>, plan: Plan, entries: seq<Entry>, root: Root,
                                                    world: World, source: Source, standing: set<string>)
    requires plan in plans && Antichain(Contested(plans, root, world))
    requires Checked(plan, entries, root, world) && KeepsKeys(source, plan, world)
    requires WinnersAreFree(source, Frozen(plans, plan, root, world), standing, world.fold)
    ensures var frozen := Frozen(plans, plan, root, world);
            && IsWellFormed(frozen, world) && ListsExactly(entries, NamesOf(frozen.entries), world)
            && IsClear(frozen, source, standing, world.fold)
  {
    var frozen := Frozen(plans, plan, root, world);
    WinningIsWhatWins(plans, plan, plan.entries, root, world);
    PreflightPlansAreWellFormed(frozen, entries, root, world);
    SameManifestListsExactly(frozen, entries, world);
    FrozenWinnersAreClear(plans, plan, root, world, source, standing);
  }
}
