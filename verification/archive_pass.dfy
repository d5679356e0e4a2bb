/** The Archive pass of one Mod Root, end to end: a preflight's frozen plans, extracted and cleaned up in turn. */
module ArchivePass {
  import opened ArchiveExtraction
  import opened ArchiveOffers
  import opened ArchivePreflight
  import opened ArchiveStaging
  import opened ArchiveTurns
  import opened ArchiveWinners
  import opened Attempts
  import opened DurableDisk
  import opened GamePaths
  import opened Publication
  import opened StandingPaths

  /** One plan's turn: a ready plan whose Archive is there is done whole while nothing fails and nobody interferes. */
  method TakeTurn(plan: Plan, source: Source, world: World, cleanup: Cleanup, registry: Registry)
    returns (safe: bool, ghost merged: seq<Change>, ghost cleaned: seq<Change>)
    modifies registry`artifacts, registry.disk
    ensures (registry.disk.quiet ==> old(registry.disk.quiet)) && (registry.disk.alone ==> old(registry.disk.alone))
    ensures MergedPrefix(merged, plan, source, world) && (cleaned != [] ==> |merged| == |plan.mergeEntries|)
    ensures registry.disk.quiet && registry.disk.alone && !registry.cleaned ==>
              IsReady(plan, source, world, old(registry.disk.files).Keys) ==>
              plan.archive.path in old(registry.disk.files) ==> safe && cleaned != []
    ensures registry.disk.alone && cleaned != [] ==>
              && IsClear(plan, source, old(registry.disk.files).Keys, world.fold)
              && registry.disk.files.Keys
                 == PathsAfter(plan, source, cleanup, old(registry.disk.files).Keys, world.fold)
  {
    var outcome;
    outcome, merged, cleaned := ExtractArchive(plan, source, world, cleanup, registry);
    safe := outcome.SafeToContinue();
  }

  /**
   * Extracts plans in order and cleans each source up, stopping when it is not safe to continue or when cancellation is
   * seen before a plan. While nothing fails and nobody interferes, plans that are ready in their turn are done whole
   * until one is cancelled, and those done whole had all found room.
   */
  method ExtractAll(frozen: seq<Plan>, sources: seq<Source>, world: World, cleanup: Cleanup, seen: nat -> bool,
                    registry: Registry)
    returns (done: nat, ghost merged: seq<seq<Change>>, ghost cleaned: seq<seq<Change>>)
    requires |sources| == |frozen| && !registry.cleaned
    modifies registry`artifacts, registry.disk
    ensures done == |merged| && ArePrefixes(merged, cleaned, frozen, sources, world)
    ensures IsUnseen(seen, done)
    ensures registry.disk.quiet && registry.disk.alone ==>
              AreReadyInTurn(frozen, sources, cleanup, world, old(registry.disk.files).Keys) ==>
              (done == |frozen| || seen(done)) && AreWhole(merged, cleaned, frozen)
    ensures registry.disk.alone && AreWhole(merged, cleaned, frozen) ==>
              FoundRoom(frozen, sources, done, cleanup, old(registry.disk.files).Keys, world.fold)
  {
    var disk := registry.disk;
    ghost var start := disk.files.Keys;
    ghost var standing := start;
    merged, cleaned := [], [];
    for i := 0 to |frozen|
      invariant |merged| == i && !registry.cleaned && ArePrefixes(merged, cleaned, frozen, sources, world)
      invariant IsUnseen(seen, i)
      invariant standing == Standing(frozen, sources, i, cleanup, start, world.fold)
      invariant disk.alone && AreWhole(merged, cleaned, frozen) ==>
                  disk.files.Keys == standing && FoundRoom(frozen, sources, i, cleanup, start, world.fold)
      invariant disk.quiet && disk.alone && AreReadyInTurn(frozen, sources, cleanup, world, start) ==>
                  AreWhole(merged, cleaned, frozen)
    {
      if seen(i) { return i, merged, cleaned; }
      UnseenOneMore(seen, i);
      var safe;
      ghost var next, change;
      safe, next, change := TakeTurn(frozen[i], sources[i], world, cleanup, registry);
      PassGrows(merged, cleaned, next, change, frozen, sources, world);
      merged, cleaned := merged + [next], cleaned + [change];
      if disk.alone && AreWhole(merged, cleaned, frozen) {
        RoomOneMore(frozen, sources, i, cleanup, start, standing, world.fold);
      }
      standing := NextStanding(frozen, sources, i, cleanup, start, standing, world.fold);
      if !safe { return i + 1, merged, cleaned; }
    }
    done := |frozen|;
  }

  /**
   * The pass over a preflight's frozen plans. While nothing fails and nobody interferes or cancels, all of it is done
   * if and only if no source is backed up to where it is in the way of a later plan's winner: always, when sources are
   * removed.
   */
  method ExtractRoot(frozen: seq<Plan>, sources: seq<Source>, root: Root, world: World, cleanup: Cleanup,
                     seen: nat -> bool, registry: Registry)
    returns (done: nat, ghost merged: seq<seq<Change>>, ghost cleaned: seq<seq<Change>>)
    requires IsFrozen(frozen, root, world) && HaveOwnPaths(frozen) && !registry.cleaned
    requires AreOffered(frozen, 0, sources, world, registry.disk.files.Keys)
    modifies registry`artifacts, registry.disk
    ensures done == |merged| && ArePrefixes(merged, cleaned, frozen, sources, world)
    ensures IsUnseen(seen, done)
    ensures registry.disk.quiet && registry.disk.alone ==>
              KeepsClear(frozen, sources, cleanup, old(registry.disk.files).Keys, world.fold) ==>
              (done == |frozen| || seen(done)) && AreWhole(merged, cleaned, frozen)
    ensures registry.disk.alone && done == |frozen| && AreWhole(merged, cleaned, frozen) ==>
              KeepsClear(frozen, sources, cleanup, old(registry.disk.files).Keys, world.fold)
  {
    ghost var start := registry.disk.files.Keys;
    if KeepsClear(frozen, sources, cleanup, start, world.fold) {
      ClearMeansReady(frozen, sources, cleanup, root, world, start);
    }
    done, merged, cleaned := ExtractAll(frozen, sources, world, cleanup, seen, registry);
    if registry.disk.alone && done == |frozen| && AreWhole(merged, cleaned, frozen) {
      RoomMeansClear(frozen, sources, cleanup, start, world.fold);
    }
  }
}
