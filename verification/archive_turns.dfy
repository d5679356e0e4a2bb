/** A pass over a Mod Root's frozen plans, turn by turn: what stands when a plan's turn comes, and what was done. */
module ArchiveTurns {
  import opened ArchiveExtraction
  import opened ArchiveOffers
  import opened ArchivePreflight
  import opened ArchiveStaging
  import opened ArchiveWinners
  import opened DurableDisk
  import opened GamePaths
  import opened StandingPaths

  /** A plan's own source stays where it is until the plan's turn. */
  lemma {:induction false} ArchiveStays(frozen: seq<Plan>, sources: seq<Source>, n: nat, k: nat, cleanup: Cleanup,
                                        start: set<string>, fold: char -> char)
    requires n <= k < |frozen| == |sources| && HaveOwnPaths(frozen) && frozen[k].archive.path in start
    ensures frozen[k].archive.path in Standing(frozen, sources, n, cleanup, start, fold)
  {
    if n > 0 {
      ArchiveStays(frozen, sources, n - 1, k, cleanup, start, fold);
      assert frozen[n - 1].archive.path != frozen[k].archive.path;
    }
  }

  lemma {:induction false} NextStanding(frozen: seq<Plan>, sources: seq<Source>, n: nat, cleanup: Cleanup,
                                        start: set<string>, before: set<string>, fold: char -> char)
    returns (after: set<string>)
    requires n < |frozen| == |sources| && before == Standing(frozen, sources, n, cleanup, start, fold)
    ensures after == Standing(frozen, sources, n + 1, cleanup, start, fold)
    ensures after == PathsAfter(frozen[n], sources[n], cleanup, before, fold)
  {
    after := PathsAfter(frozen[n], sources[n], cleanup, before, fold);
  }

  lemma {:induction false} NextStillOffered(frozen: seq<Plan>, sources: seq<Source>, n: nat, cleanup: Cleanup,
                                            world: World, before: set<string>, after: set<string>, backup: string)
    requires AllLieApart(frozen, sources, world.fold) && HaveOwnPaths(frozen) && n < |frozen|
    requires AreOffered(frozen, n, sources, world, before)
    requires after == PathsAfter(frozen[n], sources[n], cleanup, before, world.fold)
    requires backup == FirstBackup(frozen[n].archive.path,
                                   before + TargetsOf(frozen[n].mergeEntries, sources[n]), world.fold)
    requires IsClearOfLater(backup, frozen, sources, n, cleanup, world.fold)
    ensures AreOffered(frozen, n + 1, sources, world, after)
  {
    forall j | n < j < |frozen|
      ensures IsOffered(frozen[j], sources[j], world, after) && frozen[j].archive.path in after
    {
      assert frozen[n].archive.path != frozen[j].archive.path;
      OfferOutlivesCleanup(frozen[n], sources[n], frozen[j], sources[j], cleanup, world, before);
    }
  }

  lemma {:induction false} StillOfferedNext(frozen: seq<Plan>, sources: seq<Source>, n: nat, cleanup: Cleanup,
                                            world: World, start: set<string>, before: set<string>)
    returns (after: set<string>)
    requires AllLieApart(frozen, sources, world.fold) && HaveOwnPaths(frozen) && n < |frozen|
    requires AreOffered(frozen, n, sources, world, before)
    requires KeepsClear(frozen, sources, cleanup, start, world.fold)
    requires before == Standing(frozen, sources, n, cleanup, start, world.fold)
    ensures after == Standing(frozen, sources, n + 1, cleanup, start, world.fold)
    ensures AreOffered(frozen, n + 1, sources, world, after)
  {
    after := NextStanding(frozen, sources, n, cleanup, start, before, world.fold);
    var backup := BackupIsClear(frozen, sources, n, cleanup, start, before, world.fold);
    NextStillOffered(frozen, sources, n, cleanup, world, before, after, backup);
  }

  /** While backups stand clear, each plan is still offered what it needs when its turn comes. */
  lemma {:induction false} StillOffered(frozen: seq<Plan>, sources: seq<Source>, n: nat, cleanup: Cleanup,
                                        world: World, start: set<string>)
    returns (standing: set<string>)
    requires AllLieApart(frozen, sources, world.fold) && HaveOwnPaths(frozen) && n <= |frozen|
    requires AreOffered(frozen, 0, sources, world, start)
    requires KeepsClear(frozen, sources, cleanup, start, world.fold)
    ensures standing == Standing(frozen, sources, n, cleanup, start, world.fold)
    ensures AreOffered(frozen, n, sources, world, standing)
    decreases n
  {
    if n == 0 {
      standing := start;
    } else {
      var before := StillOffered(frozen, sources, n - 1, cleanup, world, start);
      standing := StillOfferedNext(frozen, sources, n - 1, cleanup, world, start, before);
    }
  }

  lemma {:induction false} BackupIsClear(frozen: seq<Plan>, sources: seq<Source>, n: nat, cleanup: Cleanup,
                                         start: set<string>, before: set<string>, fold: char -> char)
    returns (backup: string)
    requires n < |frozen| == |sources| && KeepsClear(frozen, sources, cleanup, start, fold)
    requires before == Standing(frozen, sources, n, cleanup, start, fold)
    ensures backup == FirstBackup(frozen[n].archive.path,
                                  before + TargetsOf(frozen[n].mergeEntries, sources[n]), fold)
    ensures IsClearOfLater(backup, frozen, sources, n, cleanup, fold)
  {
    backup := FirstBackup(frozen[n].archive.path, before + TargetsOf(frozen[n].mergeEntries, sources[n]), fold);
    if cleanup == Backup { assert backup == BackupOf(frozen, sources, n, start, fold); }
  }

  /** A backup stays where it was put. */
  lemma {:induction false} BackupStays(frozen: seq<Plan>, sources: seq<Source>, i: nat, n: nat, start: set<string>,
                                       backup: string, fold: char -> char)
    returns (standing: set<string>)
    requires i < n <= |frozen| == |sources| && backup == BackupOf(frozen, sources, i, start, fold)
    requires forall k :: i < k < n ==> frozen[k].archive.path != backup
    ensures standing == Standing(frozen, sources, n, Backup, start, fold) && backup in standing
    decreases n
  {
    if n == i + 1 {
      standing := BackupIsPut(frozen, sources, n, start, backup, fold);
    } else {
      var before := BackupStays(frozen, sources, i, n - 1, start, backup, fold);
      standing := StaysPut(frozen, sources, n, start, before, backup, fold);
    }
  }

  lemma {:induction false} StaysPut(frozen: seq<Plan>, sources: seq<Source>, n: nat, start: set<string>,
                                    before: set<string>, path: string, fold: char -> char)
    returns (after: set<string>)
    requires 0 < n <= |frozen| == |sources| && before == Standing(frozen, sources, n - 1, Backup, start, fold)
    requires path in before && path != frozen[n - 1].archive.path
    ensures after == Standing(frozen, sources, n, Backup, start, fold) && path in after
  {
    after := PathsAfter(frozen[n - 1], sources[n - 1], Backup, before, fold);
    Untouched(frozen[n - 1], sources[n - 1], before, path, fold);
  }

  lemma {:induction false} BackupIsPut(frozen: seq<Plan>, sources: seq<Source>, n: nat, start: set<string>,
                                       backup: string, fold: char -> char)
    returns (standing: set<string>)
    requires 0 < n <= |frozen| == |sources| && backup == BackupOf(frozen, sources, n - 1, start, fold)
    ensures standing == Standing(frozen, sources, n, Backup, start, fold) && backup in standing
  {
    standing := Standing(frozen, sources, n, Backup, start, fold);
  }

  lemma {:induction false} Untouched(plan: Plan, source: Source, before: set<string>, path: string,
                                     fold: char -> char)
    requires path in before && path != plan.archive.path
    ensures path in PathsAfter(plan, source, Backup, before, fold)
  {
  }

  lemma {:induction false} BackupIsNoArchive(frozen: seq<Plan>, sources: seq<Source>, i: nat, k: nat,
                                             start: set<string>, backup: string, fold: char -> char)
    requires i < k < |frozen| == |sources| && HaveOwnPaths(frozen) && frozen[k].archive.path in start
    requires backup == BackupOf(frozen, sources, i, start, fold)
    ensures backup != frozen[k].archive.path
  {
    ArchiveStays(frozen, sources, i, k, Backup, start, fold);
    NotFoundIsAbsent(backup, Standing(frozen, sources, i, Backup, start, fold)
                             + TargetsOf(frozen[i].mergeEntries, sources[i]), fold);
  }

  /** Each of the first `n` plans found room for all its winners when its turn came. */
  ghost predicate FoundRoom(frozen: seq<Plan>, sources: seq<Source>, n: nat, cleanup: Cleanup, start: set<string>,
                            fold: char -> char)
    requires n <= |frozen| == |sources|
  {
    forall k :: 0 <= k < n ==>
      IsClear(frozen[k], sources[k], Standing(frozen, sources, k, cleanup, start, fold), fold)
  }

  /** When every plan found room, no backup was in the way. */
  lemma {:induction false} RoomMeansClear(frozen: seq<Plan>, sources: seq<Source>, cleanup: Cleanup, start: set<string>,
                                          fold: char -> char)
    requires |sources| == |frozen| && HaveOwnPaths(frozen)
    requires forall k :: 0 <= k < |frozen| ==> frozen[k].archive.path in start
    requires FoundRoom(frozen, sources, |frozen|, cleanup, start, fold)
    ensures KeepsClear(frozen, sources, cleanup, start, fold)
  {
    if cleanup == Backup {
      forall i, j | 0 <= i < j < |frozen|
        ensures !IsInTheWay(BackupOf(frozen, sources, i, start, fold), frozen[j], sources[j], fold)
      {
        var backup := BackupOf(frozen, sources, i, start, fold);
        forall k | i < k < j ensures frozen[k].archive.path != backup {
          BackupIsNoArchive(frozen, sources, i, k, start, backup, fold);
        }
        var standing := BackupStays(frozen, sources, i, j, start, backup, fold);
        ClearOf(backup, frozen[j], sources[j], standing, fold);
      }
    }
  }

  lemma {:induction false} ClearOf(backup: string, plan: Plan, source: Source, standing: set<string>,
                                   fold: char -> char)
    requires IsClear(plan, source, standing, fold) && backup in standing
    ensures !IsInTheWay(backup, plan, source, fold)
  {
    forall entry | entry in plan.mergeEntries ensures !Blocks(backup, source.target(entry), fold) {
      var k :| 0 <= k < |plan.mergeEntries| && plan.mergeEntries[k] == entry;
      assert IsFree(source.target(plan.mergeEntries[k]), standing, fold);
    }
  }

  lemma {:induction false} RoomOneMore(frozen: seq<Plan>, sources: seq<Source>, n: nat, cleanup: Cleanup,
                                       start: set<string>, standing: set<string>, fold: char -> char)
    requires n < |frozen| == |sources| && FoundRoom(frozen, sources, n, cleanup, start, fold)
    requires standing == Standing(frozen, sources, n, cleanup, start, fold)
    requires IsClear(frozen[n], sources[n], standing, fold)
    ensures FoundRoom(frozen, sources, n + 1, cleanup, start, fold)
  {
  }

  /** Each plan is ready when its turn comes, and its Archive is there. */
  ghost predicate AreReadyInTurn(frozen: seq<Plan>, sources: seq<Source>, cleanup: Cleanup, world: World,
                                 start: set<string>)
    requires |sources| == |frozen|
  {
    forall i :: 0 <= i < |frozen| ==>
      && IsReady(frozen[i], sources[i], world, Standing(frozen, sources, i, cleanup, start, world.fold))
      && frozen[i].archive.path in Standing(frozen, sources, i, cleanup, start, world.fold)
  }

  lemma {:induction false} ClearMeansReady(frozen: seq<Plan>, sources: seq<Source>, cleanup: Cleanup, root: Root,
                                           world: World, start: set<string>)
    requires IsFrozen(frozen, root, world) && HaveOwnPaths(frozen) && AreOffered(frozen, 0, sources, world, start)
    requires KeepsClear(frozen, sources, cleanup, start, world.fold)
    ensures AreReadyInTurn(frozen, sources, cleanup, world, start)
  {
    FrozenLieApart(frozen, sources, root, world, start);
    forall i | 0 <= i < |frozen|
      ensures IsReady(frozen[i], sources[i], world, Standing(frozen, sources, i, cleanup, start, world.fold))
      ensures frozen[i].archive.path in Standing(frozen, sources, i, cleanup, start, world.fold)
    {
      var standing := StillOffered(frozen, sources, i, cleanup, world, start);
      OfferedIsReady(frozen, i, root, world, sources[i], standing);
    }
  }

  // What a pass did.

  /** Cancellation is seen before none of the first `n` plans. */
  ghost predicate IsUnseen(seen: nat -> bool, n: nat) {
    forall i :: 0 <= i < n ==> !seen(i)
  }

  lemma {:induction false} UnseenOneMore(seen: nat -> bool, n: nat)
    requires IsUnseen(seen, n) && !seen(n)
    ensures IsUnseen(seen, n + 1)
  {
  }

  /** What the first plans of a pass published: of each a prefix of its winners, and its source cleaned up after all. */
  ghost predicate ArePrefixes(merged: seq<seq<Change>>, cleaned: seq<seq<Change>>, frozen: seq<Plan>,
                              sources: seq<Source>, world: World) {
    && |merged| == |cleaned| <= |frozen| == |sources|
    && forall i :: 0 <= i < |merged| ==>
         && MergedPrefix(merged[i], frozen[i], sources[i], world)
         && (cleaned[i] != [] ==> |merged[i]| == |frozen[i].mergeEntries|)
  }

  /** And of each every winner, with its source cleaned up. */
  ghost predicate AreWhole(merged: seq<seq<Change>>, cleaned: seq<seq<Change>>, frozen: seq<Plan>) {
    && |merged| == |cleaned| <= |frozen|
    && forall i :: 0 <= i < |merged| ==> |merged[i]| == |frozen[i].mergeEntries| && cleaned[i] != []
  }

  lemma {:induction false} PassGrows(merged: seq<seq<Change>>, cleaned: seq<seq<Change>>, next: seq<Change>,
                                     cleanup: seq<Change>, frozen: seq<Plan>, sources: seq<Source>, world: World)
    requires |merged| < |frozen| && ArePrefixes(merged, cleaned, frozen, sources, world)
    requires MergedPrefix(next, frozen[|merged|], sources[|merged|], world)
    requires cleanup != [] ==> |next| == |frozen[|merged|].mergeEntries|
    ensures ArePrefixes(merged + [next], cleaned + [cleanup], frozen, sources, world)
    ensures AreWhole(merged + [next], cleaned + [cleanup], frozen)
       <==> AreWhole(merged, cleaned, frozen) && cleanup != []
  {
    var more, done := merged + [next], cleaned + [cleanup];
    assert more[|merged|] == next && done[|merged|] == cleanup;
    assert forall i :: 0 <= i < |merged| ==> more[i] == merged[i] && done[i] == cleaned[i];
  }
}
