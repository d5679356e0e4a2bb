/** What a pass over a Mod Root's frozen plans finds: room for later winners, unless a backup took it. */
module ArchiveOffers {
  import opened ArchiveExtraction
  import opened ArchivePreflight
  import opened ArchiveStaging
  import opened ArchiveWinners
  import opened DurableDisk
  import opened GamePaths
  import opened StandingPaths

  /** What extraction needs of its surroundings: the manifest the preflight read, and room to stage and to merge. */
  ghost predicate IsOffered(plan: Plan, source: Source, world: World, standing: set<string>) {
    && source.contained && source.fits && source.manifest == world.manifest(plan.archive)
    && KeepsKeys(source, plan, world) && WinnersAreFree(source, plan, standing, world.fold)
  }

  /** The plans from `from` on are offered what they need, and their Archives are there. */
  ghost predicate AreOffered(frozen: seq<Plan>, from: nat, sources: seq<Source>, world: World, standing: set<string>) {
    && |sources| == |frozen|
    && forall i :: from <= i < |frozen| ==>
         IsOffered(frozen[i], sources[i], world, standing) && frozen[i].archive.path in standing
  }

  /** Discovery recognizes each path once. */
  ghost predicate HaveOwnPaths(frozen: seq<Plan>) {
    forall i, j :: 0 <= i < j < |frozen| ==> frozen[i].archive.path != frozen[j].archive.path
  }

  /** A preflight's frozen plan, offered its own manifest, passes every check and stands in no other winner's way. */
  lemma {:induction false} OfferedIsReady(frozen: seq<Plan>, i: nat, root: Root, world: World, source: Source,
                                          standing: set<string>)
    requires IsFrozen(frozen, root, world) && i < |frozen| && IsOffered(frozen[i], source, world, standing)
    ensures IsReady(frozen[i], source, world, standing)
  {
    var plans := AsRead(frozen);
    var plan := plans[i];
    assert frozen[i] == Frozen(plans, plan, root, world);
    FrozenPlanIsUnobstructed(plans, plan, source.manifest.value, root, world, source, standing);
  }

  lemma {:induction false} WinnerOfRead(frozen: seq<Plan>, i: nat, entry: string, root: Root, world: World)
    returns (plans: seq<Plan>)
    requires IsFrozen(frozen, root, world) && i < |frozen| && entry in frozen[i].mergeEntries
    ensures plans == AsRead(frozen) && plans[i] in plans
    ensures entry in plans[i].entries && Wins(plans, plans[i], entry, root, world)
  {
    plans := AsRead(frozen);
    WinningIsWhatWins(plans, plans[i], plans[i].entries, root, world);
  }

  lemma {:induction false} OneWinner(plans: seq<Plan>, i: nat, j: nat, a: string, b: string, root: Root, world: World)
    requires DistinctArchives(plans) && i < |plans| && j < |plans| && i != j
    requires Wins(plans, plans[i], a, root, world) && Wins(plans, plans[j], b, root, world)
    ensures Key(plans[i].archive, a, world) != Key(plans[j].archive, b, world)
  {
  }

  /** No winner of one plan is in the way of another plan's: neither at its destination, nor above or below it. */
  lemma {:induction false} WinnersAreApart(frozen: seq<Plan>, i: nat, j: nat, a: string, b: string, source: Source,
                                           sink: Source, root: Root, world: World)
    requires IsFrozen(frozen, root, world) && i < |frozen| && j < |frozen| && i != j
    requires KeepsKeys(source, frozen[i], world) && KeepsKeys(sink, frozen[j], world)
    requires a in frozen[i].mergeEntries && b in frozen[j].mergeEntries
    ensures !Blocks(source.target(a), sink.target(b), world.fold)
  {
    var plans := WinnerOfRead(frozen, i, a, root, world);
    var _ := WinnerOfRead(frozen, j, b, root, world);
    OneWinner(plans, i, j, a, b, root, world);
    ContestedAreApart(plans, plans[i], plans[j], a, b, source, sink, root, world);
  }

  /** No winner of one plan is in the way of one of the other's. */
  ghost predicate LieApart(plan: Plan, source: Source, other: Plan, sink: Source, fold: char -> char) {
    forall a, b :: a in plan.mergeEntries && b in other.mergeEntries ==> !Blocks(source.target(a), sink.target(b), fold)
  }

  ghost predicate AllLieApart(frozen: seq<Plan>, sources: seq<Source>, fold: char -> char) {
    |frozen| == |sources|
    && forall i, j :: 0 <= i < |frozen| && 0 <= j < |frozen| && i != j ==>
         LieApart(frozen[i], sources[i], frozen[j], sources[j], fold)
  }

  lemma {:induction false} FrozenLieApart(frozen: seq<Plan>, sources: seq<Source>, root: Root, world: World,
                                          standing: set<string>)
    requires IsFrozen(frozen, root, world) && AreOffered(frozen, 0, sources, world, standing)
    ensures AllLieApart(frozen, sources, world.fold)
  {
    forall i, j | 0 <= i < |frozen| && 0 <= j < |frozen| && i != j
      ensures LieApart(frozen[i], sources[i], frozen[j], sources[j], world.fold)
    {
      forall a, b | a in frozen[i].mergeEntries && b in frozen[j].mergeEntries
        ensures !Blocks(sources[i].target(a), sources[j].target(b), world.fold)
      {
        WinnersAreApart(frozen, i, j, a, b, sources[i], sources[j], root, world);
      }
    }
  }

  /** One plan's merges leave room for the winners of any other that lies apart from it. */
  lemma {:induction false} OfferOutlivesMerges(plan: Plan, source: Source, other: Plan, sink: Source, world: World,
                                               standing: set<string>)
    requires LieApart(plan, source, other, sink, world.fold) && IsOffered(other, sink, world, standing)
    ensures IsOffered(other, sink, world, standing + TargetsOf(plan.mergeEntries, source))
  {
    forall b, path | b in other.mergeEntries && path in standing + TargetsOf(plan.mergeEntries, source)
      ensures !Blocks(path, sink.target(b), world.fold)
    {
      if path !in standing {
        var a :| a in plan.mergeEntries && path == source.target(a);
      }
    }
  }

  // The pass, plan by plan.

  /** What stands once the first `n` plans were extracted whole. */
  ghost function Standing(frozen: seq<Plan>, sources: seq<Source>, n: nat, cleanup: Cleanup, start: set<string>,
                          fold: char -> char)
    : (standing: set<string>)
    requires n <= |frozen| == |sources|
  {
    if n == 0 then start
    else PathsAfter(frozen[n - 1], sources[n - 1], cleanup,
                    Standing(frozen, sources, n - 1, cleanup, start, fold), fold)
  }

  /** The name the `i`th plan's source is backed up to. */
  ghost function BackupOf(frozen: seq<Plan>, sources: seq<Source>, i: nat, start: set<string>, fold: char -> char)
    : string
    requires i < |frozen| == |sources|
  {
    FirstBackup(frozen[i].archive.path,
                Standing(frozen, sources, i, Backup, start, fold) + TargetsOf(frozen[i].mergeEntries, sources[i]), fold)
  }

  /** A backup is in the way of a plan: some winner would go to its name, or below it. */
  ghost predicate IsInTheWay(backup: string, plan: Plan, source: Source, fold: char -> char) {
    exists entry :: entry in plan.mergeEntries && Blocks(backup, source.target(entry), fold)
  }

  /** No plan's source is backed up to where it is in the way of a later plan. */
  ghost predicate BackupsStandClear(frozen: seq<Plan>, sources: seq<Source>, start: set<string>, fold: char -> char)
    requires |sources| == |frozen|
  {
    forall i, j :: 0 <= i < j < |frozen| ==>
      !IsInTheWay(BackupOf(frozen, sources, i, start, fold), frozen[j], sources[j], fold)
  }

  /** Sources are removed, or backed up where they are in nobody's way. */
  ghost predicate KeepsClear(frozen: seq<Plan>, sources: seq<Source>, cleanup: Cleanup, start: set<string>,
                             fold: char -> char)
    requires |sources| == |frozen|
  {
    cleanup == Remove || BackupsStandClear(frozen, sources, start, fold)
  }

  /** Whatever the `n`th plan's source is backed up to is in no later plan's way. */
  ghost predicate IsClearOfLater(backup: string, frozen: seq<Plan>, sources: seq<Source>, n: nat, cleanup: Cleanup,
                                 fold: char -> char)
    requires |sources| == |frozen|
  {
    cleanup == Remove || forall j :: n < j < |frozen| ==> !IsInTheWay(backup, frozen[j], sources[j], fold)
  }

  /** Cleaning one source up leaves another plan its room exactly when the backup, if any, is not in its way. */
  lemma {:induction false} OfferOutlivesCleanup(plan: Plan, source: Source, other: Plan, sink: Source,
                                                cleanup: Cleanup, world: World, standing: set<string>)
    requires LieApart(plan, source, other, sink, world.fold) && IsOffered(other, sink, world, standing)
    requires plan.archive.path in standing
    ensures var backup := FirstBackup(plan.archive.path, standing + TargetsOf(plan.mergeEntries, source), world.fold);
            IsOffered(other, sink, world, PathsAfter(plan, source, cleanup, standing, world.fold))
            <==> cleanup == Remove || !IsInTheWay(backup, other, sink, world.fold)
  {
    var merged := standing + TargetsOf(plan.mergeEntries, source);
    var backup := FirstBackup(plan.archive.path, merged, world.fold);
    var after := PathsAfter(plan, source, cleanup, standing, world.fold);
    OfferOutlivesMerges(plan, source, other, sink, world, standing);
    if cleanup == Remove || !IsInTheWay(backup, other, sink, world.fold) {
      forall b, path | b in other.mergeEntries && path in after
        ensures !Blocks(path, sink.target(b), world.fold)
      {
        assert path in merged || (cleanup == Backup && path == backup);
      }
    } else {
      var entry :| entry in other.mergeEntries && Blocks(backup, sink.target(entry), world.fold);
      assert backup in after;
      assert !IsFree(sink.target(entry), after, world.fold);
    }
  }
}
