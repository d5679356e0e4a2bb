/** Archive discovery's passes: explicit precedence, the frozen winners of each Mod Root, and the whole preflight. */
module ArchiveDiscovery {
  import opened GamePaths
  import opened ArchivePreflight
  import opened ArchiveWinners

  // Freezing winners.

  lemma {:induction false} AntichainOfPart(part: set<string>, whole: set<string>)
    requires part <= whole && !Antichain(part)
    ensures !Antichain(whole)
  {
    var a, b :| a in part && b in part && IsAncestor(a, b);
    assert a in whole && b in whole;
  }

  /** Whether a plan's entry wins, as its game path's participants tell. */
  method IsWinner(plans: seq<Plan>, plan: Plan, i: nat, provided: map<string, seq<Archive>>, root: Root, world: World)
    returns (wins: bool)
    requires plan in plans && i < |plan.entries| && AreParticipants(provided, plans, world)
    ensures wins == Wins(plans, plan, plan.entries[i], root, world)
  {
    var key := Key(plan.archive, plan.entries[i], world);
    assert Provides(plan, key, world);
    NoProvider(plans, key, world);
    wins := provided[key][0] == plan.archive && key !in root.loose;
  }

  lemma {:induction false} NotItsOwnAncestor(key: string)
    ensures !IsAncestor(key, key)
  {
    AncestorIsPrefix(key, key);
  }

  /** Plans one more game path, unless a file and a directory would share one. */
  method PlanPath(planned: map<string, string>, gamePath: string, world: World)
    returns (more: Option<map<string, string>>)
    requires KeepsSlash(world.fold) && IsPlanned(planned, planned.Keys, world) && Antichain(planned.Keys)
    ensures more.Some? <==> Antichain(planned.Keys + {Folded(gamePath, world.fold)})
    ensures more.Some? ==>
              IsPlanned(more.value, planned.Keys + {Folded(gamePath, world.fold)}, world) && Antichain(more.value.Keys)
  {
    var key := Folded(gamePath, world.fold);
    var conflicts := ConflictsWithPlanned(planned, gamePath, world);
    NotItsOwnAncestor(key);
    if conflicts { return None; }
    var grown := if key in planned then planned else planned[key := gamePath];
    assert grown.Keys == planned.Keys + {key};
    more := Some(grown);
  }

  lemma {:induction false} WinningOfOneMore(plans: seq<Plan>, plan: Plan, i: nat, root: Root, world: World)
    requires i < |plan.entries|
    ensures Winning(plans, plan, plan.entries[..i + 1], root, world)
         == Winning(plans, plan, plan.entries[..i], root, world)
            + if Wins(plans, plan, plan.entries[i], root, world) then [plan.entries[i]] else []
  {
    assert plan.entries[..i + 1][..i] == plan.entries[..i];
  }

  lemma {:induction false} WonIsWinning(plans: seq<Plan>, plan: Plan, i: nat, root: Root, world: World)
    requires i < |plan.entries| && Wins(plans, plan, plan.entries[i], root, world)
    ensures Key(plan.archive, plan.entries[i], world)
         in KeysOf(plan.archive, Winning(plans, plan, plan.entries, root, world), world)
  {
    WinningIsWhatWins(plans, plan, plan.entries, root, world);
    assert plan.entries[i] in Winning(plans, plan, plan.entries, root, world);
    var winning := Winning(plans, plan, plan.entries, root, world);
    InKeysOf(plan.archive, winning, Key(plan.archive, plan.entries[i], world), world);
  }

  lemma {:induction false} FrozenEntry(plans: seq<Plan>, plan: Plan, i: nat, merged: seq<string>, before: set<string>,
                                       planned: map<string, string>, more: map<string, string>, root: Root,
                                       world: World)
    requires i < |plan.entries| && IsFrozenUpTo(plans, plan, i, merged, before, planned, root, world)
    requires if Wins(plans, plan, plan.entries[i], root, world)
             then Antichain(more.Keys)
                  && IsPlanned(more, planned.Keys + {Key(plan.archive, plan.entries[i], world)}, world)
             else more == planned
    ensures var won := if Wins(plans, plan, plan.entries[i], root, world) then merged + [plan.entries[i]] else merged;
            IsFrozenUpTo(plans, plan, i + 1, won, before, more, root, world)
  {
    WinningOfOneMore(plans, plan, i, root, world);
    KeysOfOneMore(plan.archive, merged, plan.entries[i], world);
    assert before + (KeysOf(plan.archive, merged, world) + {Key(plan.archive, plan.entries[i], world)})
        == before + KeysOf(plan.archive, merged, world) + {Key(plan.archive, plan.entries[i], world)};
  }

  lemma {:induction false} PlannedIsPartOfAll(plans: seq<Plan>, plan: Plan, i: nat, merged: seq<string>,
                                              before: set<string>, planned: map<string, string>, root: Root,
                                              world: World)
    requires i < |plan.entries| && IsFrozenUpTo(plans, plan, i, merged, before, planned, root, world)
    requires Wins(plans, plan, plan.entries[i], root, world)
    ensures planned.Keys + {Key(plan.archive, plan.entries[i], world)}
         <= before + KeysOf(plan.archive, Winning(plans, plan, plan.entries, root, world), world)
  {
    WonIsWinning(plans, plan, i, root, world);
    forall key | key in KeysOf(plan.archive, merged, world)
      ensures key in KeysOf(plan.archive, Winning(plans, plan, plan.entries, root, world), world)
    {
      WinningKeyIsWinning(plans, plan, i, key, root, world);
    }
  }

  lemma {:induction false} WinningKeyIsWinning(plans: seq<Plan>, plan: Plan, i: nat, key: string, root: Root,
                                               world: World)
    requires i <= |plan.entries|
    requires key in KeysOf(plan.archive, Winning(plans, plan, plan.entries[..i], root, world), world)
    ensures key in KeysOf(plan.archive, Winning(plans, plan, plan.entries, root, world), world)
  {
    var some := Winning(plans, plan, plan.entries[..i], root, world);
    var all := Winning(plans, plan, plan.entries, root, world);
    InKeysOf(plan.archive, some, key, world);
    InKeysOf(plan.archive, all, key, world);
    WinningIsWhatWins(plans, plan, plan.entries[..i], root, world);
    WinningIsWhatWins(plans, plan, plan.entries, root, world);
    var k :| 0 <= k < |some| && Key(plan.archive, some[k], world) == key;
    assert some[k] in some && some[k] in all;
    var j :| 0 <= j < |all| && all[j] == some[k];
  }

  /** Freezes one plan's winners beside those planned before it, or finds a file where a directory is needed. */
  method FreezePlan(plans: seq<Plan>, plan: Plan, provided: map<string, seq<Archive>>, planned: map<string, string>,
                    root: Root, world: World)
    returns (won: Option<seq<string>>, more: map<string, string>)
    requires KeepsSlash(world.fold) && plan in plans && AreParticipants(provided, plans, world)
    requires IsPlanned(planned, planned.Keys, world) && Antichain(planned.Keys)
    ensures won.Some? ==>
              && IsFrozenUpTo(plans, plan, |plan.entries|, won.value, planned.Keys, more, root, world)
    ensures won.None? ==>
              !Antichain(planned.Keys + KeysOf(plan.archive, Winning(plans, plan, plan.entries, root, world), world))
  {
    more := planned;
    var merged: seq<string> := [];
    NothingFrozen(plans, plan, planned, root, world);
    for i := 0 to |plan.entries|
      invariant IsFrozenUpTo(plans, plan, i, merged, planned.Keys, more, root, world)
    {
      var wins := IsWinner(plans, plan, i, provided, root, world);
      ghost var before := more;
      if wins {
        PlannedIsPartOfAll(plans, plan, i, merged, planned.Keys, more, root, world);
        var added := PlanPath(more, GamePath(plan.archive, plan.entries[i]), world);
        if added.None? {
          AntichainOfPart(more.Keys + {Key(plan.archive, plan.entries[i], world)},
                          planned.Keys + KeysOf(plan.archive, Winning(plans, plan, plan.entries, root, world), world));
          return None, planned;
        }
        more := added.value;
      }
      FrozenEntry(plans, plan, i, merged, planned.Keys, before, more, root, world);
      merged := if wins then merged + [plan.entries[i]] else merged;
    }
    won := Some(merged);
  }

  lemma {:induction false} NothingFrozen(plans: seq<Plan>, plan: Plan, planned: map<string, string>, root: Root,
                                         world: World)
    requires IsPlanned(planned, planned.Keys, world) && Antichain(planned.Keys)
    ensures IsFrozenUpTo(plans, plan, 0, [], planned.Keys, planned, root, world)
  {
    assert plan.entries[..0] == [] && planned.Keys + {} == planned.Keys;
  }

  /** One more plan frozen: planned beside those before it. */
  lemma {:induction false} FrozenPlan(plans: seq<Plan>, done: seq<Plan>, won: seq<string>, planned: map<string, string>,
                                      more: map<string, string>, root: Root, world: World)
    requires |done| < |plans| && AreFrozen(done, plans, root, world)
    requires IsPlanned(planned, MergedKeys(done, world), world)
    requires IsFrozenUpTo(plans, plans[|done|], |plans[|done|].entries|, won, planned.Keys, more, root, world)
    ensures var next := done + [plans[|done|].(mergeEntries := won)];
            && AreFrozen(next, plans, root, world)
            && IsPlanned(more, MergedKeys(next, world), world) && Antichain(more.Keys)
  {
    var plan := plans[|done|];
    var next := plan.(mergeEntries := won);
    WholePlanIsFrozen(plans, plan, won, planned.Keys, more, root, world);
    FrozenGrows(done, plans, next, root, world);
    MergedOfOneMore(done, next, world);
  }

  lemma {:induction false} WholePlanIsFrozen(plans: seq<Plan>, plan: Plan, won: seq<string>, before: set<string>,
                                             more: map<string, string>, root: Root, world: World)
    requires IsFrozenUpTo(plans, plan, |plan.entries|, won, before, more, root, world)
    ensures plan.(mergeEntries := won) == Frozen(plans, plan, root, world)
    ensures IsPlanned(more, before + MergedBy(plan.(mergeEntries := won), world), world)
  {
    assert plan.entries[..|plan.entries|] == plan.entries;
  }

  lemma {:induction false} MergedOfOneMore(done: seq<Plan>, plan: Plan, world: World)
    ensures MergedKeys(done + [plan], world) == MergedKeys(done, world) + MergedBy(plan, world)
  {
    assert (done + [plan])[..|done|] == done;
  }

  lemma {:induction false} ConflictIsContested(plans: seq<Plan>, done: seq<Plan>, root: Root, world: World)
    requires DistinctArchives(plans) && |done| < |plans| && AreFrozen(done, plans, root, world)
    requires !Antichain(MergedKeys(done, world) + MergedBy(Frozen(plans, plans[|done|], root, world), world))
    ensures !Antichain(Contested(plans, root, world))
  {
    var plan := Frozen(plans, plans[|done|], root, world);
    var next := done + [plan];
    FrozenGrows(done, plans, plan, root, world);
    MergedOfOneMore(done, plan, world);
    forall key | key in MergedKeys(next, world) ensures key in Contested(plans, root, world) {
      MergedIsContested(next, plans, key, root, world);
    }
    AntichainOfPart(MergedKeys(next, world), Contested(plans, root, world));
  }

  /** Freezes a Mod Root's winners: refused exactly when two game paths it would merge cannot coexist. */
  method FreezeRoot(plans: seq<Plan>, provided: map<string, seq<Archive>>, root: Root, world: World)
    returns (frozen: Option<seq<Plan>>)
    requires KeepsSlash(world.fold) && DistinctArchives(plans) && AreParticipants(provided, plans, world)
    ensures frozen.Some? <==> Antichain(Contested(plans, root, world))
    ensures frozen.Some? ==> |frozen.value| == |plans| && AreFrozen(frozen.value, plans, root, world)
  {
    var done: seq<Plan> := [];
    var planned: map<string, string> := map[];
    for i := 0 to |plans|
      invariant |done| == i && AreFrozen(done, plans, root, world)
      invariant IsPlanned(planned, MergedKeys(done, world), world) && Antichain(planned.Keys)
    {
      var won, more := FreezePlan(plans, plans[i], provided, planned, root, world);
      if won.None? {
        ConflictIsContested(plans, done, root, world);
        return None;
      }
      FrozenPlan(plans, done, won.value, planned, more, root, world);
      done := done + [plans[i].(mergeEntries := won.value)];
      planned := more;
    }
    AllContestedAreMerged(done, plans, root, world);
    frozen := Some(done);
  }

  // Explicit Archive Precedence.

  /** Where a requested Archive name leads: outside its Mod Root, or to a path inside it. */
  datatype Location = Outside | Inside(path: string)

  /** A Mod Root and a requested name, located. */
  type Locate = (string, string) -> Location

  datatype OrderFailure = OutsideRoot | Extra | Duplicate | Missing

  datatype Ordering = Ordered(archives: seq<Archive>) | Disordered(failure: OrderFailure)

  /** The first enabled Archive whose path is the candidate's, by the platform's folded comparison. */
  function Find(archives: seq<Archive>, path: string, fold: char -> char): (found: Option<Archive>)
    ensures found.Some? ==> found.value in archives && Folded(found.value.path, fold) == Folded(path, fold)
    ensures found.None? ==> forall archive :: archive in archives ==> Folded(archive.path, fold) != Folded(path, fold)
  {
    if archives == [] then None
    else if Folded(archives[0].path, fold) == Folded(path, fold) then Some(archives[0])
    else Find(archives[1..], path, fold)
  }

  /** The enabled Archive a requested name stands for. */
  function Named(root: Root, requested: string, locate: Locate, fold: char -> char): Option<Archive> {
    var location := locate(root.path, requested);
    if location.Outside? then None else Find(root.archives, location.path, fold)
  }

  ghost predicate NamesEachOnce(root: Root, order: seq<string>, locate: Locate, fold: char -> char) {
    && |order| == |root.archives|
    && (forall i :: 0 <= i < |order| ==> Named(root, order[i], locate, fold).Some?)
    && (forall i, j :: 0 <= i < j < |order| ==>
          Named(root, order[i], locate, fold) != Named(root, order[j], locate, fold))
  }

  lemma {:induction false} StillAmong<T>(all: seq<T>, k: nat, item: T)
    requires k < |all| && item in all && item != all[k]
    ensures item in all[..k] + all[k + 1..]
  {
    var j :| 0 <= j < |all| && all[j] == item;
    assert (all[..k] + all[k + 1..])[if j < k then j else j - 1] == item;
  }

  lemma {:induction false} SameItems<T>(items: seq<T>, all: seq<T>)
    requires NoRepeats(items) && |items| == |all| && forall i :: 0 <= i < |items| ==> items[i] in all
    ensures multiset(items) == multiset(all)
    decreases |items|
  {
    if items != [] {
      var last, rest := items[|items| - 1], items[..|items| - 1];
      var k :| 0 <= k < |all| && all[k] == last;
      var others := all[..k] + all[k + 1..];
      assert all == all[..k] + [last] + all[k + 1..];
      forall i | 0 <= i < |rest| ensures rest[i] in others {
        assert rest[i] == items[i] && items[i] in all;
        StillAmong(all, k, items[i]);
      }
      SameItems(rest, others);
      assert items == rest + [last];
    }
  }

  /** Every enabled Archive must be named exactly once; the order is then a reordering of them all. */
  method ValidateArchiveOrder(root: Root, order: seq<string>, locate: Locate, fold: char -> char)
    returns (ordering: Ordering)
    ensures ordering.Ordered? <==> NamesEachOnce(root, order, locate, fold)
    ensures ordering.Ordered? ==>
              && |ordering.archives| == |order| && NoRepeats(ordering.archives)
              && multiset(ordering.archives) == multiset(root.archives)
              && forall i :: 0 <= i < |order| ==> Some(ordering.archives[i]) == Named(root, order[i], locate, fold)
  {
    var ordered: seq<Archive> := [];
    for i := 0 to |order|
      invariant |ordered| == i && NoRepeats(ordered)
      invariant forall k :: 0 <= k < i ==> Some(ordered[k]) == Named(root, order[k], locate, fold)
    {
      var location := locate(root.path, order[i]);
      if location.Outside? {
        assert Named(root, order[i], locate, fold).None?;
        return Disordered(OutsideRoot);
      }
      var found := Find(root.archives, location.path, fold);
      assert found == Named(root, order[i], locate, fold);
      if found.None? { return Disordered(Extra); }
      if found.value in ordered {
        var k :| 0 <= k < i && ordered[k] == found.value;
        assert Named(root, order[k], locate, fold) == found;
        return Disordered(Duplicate);
      }
      ordered := ordered + [found.value];
    }
    if |ordered| != |root.archives| { return Disordered(Missing); }
    forall i | 0 <= i < |ordered| ensures ordered[i] in root.archives {
      assert Some(ordered[i]) == Named(root, order[i], locate, fold);
    }
    SameItems(ordered, root.archives);
    ordering := Ordered(ordered);
  }

  // The whole preflight.

  datatype Preflight =
    | Planned(plans: seq<seq<Plan>>)
    | OrderRefused
    | DiscoveryFailed
    | OutOfSpace
    | Cancelled

  /** A Mod Root with its Archives in the requested order, high to low; without one, as they were discovered. */
  ghost predicate IsOrdered(ordered: Root, root: Root, order: Option<seq<string>>, locate: Locate, fold: char -> char) {
    && ordered.path == root.path && ordered.loose == root.loose && NoRepeats(ordered.archives)
    && multiset(ordered.archives) == multiset(root.archives)
    && (order.None? ==> ordered == root)
    && (order.Some? ==> |ordered.archives| == |order.value|)
    && (order.Some? ==> forall i :: 0 <= i < |order.value| ==>
          Some(ordered.archives[i]) == Named(root, order.value[i], locate, fold))
  }

  /** Explicit precedence is validated for every Mod Root before any manifest is read. */
  method OrderRoots(roots: seq<Root>, order: Option<seq<string>>, locate: Locate, fold: char -> char)
    returns (ordered: Option<seq<Root>>)
    requires forall i :: 0 <= i < |roots| ==> NoRepeats(roots[i].archives)
    ensures ordered.Some? <==> order.None? || forall i :: 0 <= i < |roots| ==>
              NamesEachOnce(roots[i], order.value, locate, fold)
    ensures ordered.Some? ==>
              && |ordered.value| == |roots|
              && forall i :: 0 <= i < |roots| ==> IsOrdered(ordered.value[i], roots[i], order, locate, fold)
  {
    if order.None? { return Some(roots); }
    var done: seq<Root> := [];
    for i := 0 to |roots|
      invariant |done| == i
      invariant forall k :: 0 <= k < i ==> NamesEachOnce(roots[k], order.value, locate, fold)
      invariant forall k :: 0 <= k < i ==> IsOrdered(done[k], roots[k], order, locate, fold)
    {
      var root := roots[i];
      var ordering := ValidateArchiveOrder(root, order.value, locate, fold);
      if ordering.Disordered? { return None; }
      done := done + [root.(archives := ordering.archives)];
    }
    ordered := Some(done);
  }

  /** Without an Archive in any Mod Root, nothing is extracted and no volume is probed. */
  ghost predicate HasArchives(roots: seq<Root>) {
    exists i :: 0 <= i < |roots| && roots[i].archives != []
  }

  /** The verdict of a preflight that runs to its end. */
  ghost predicate IsVerdict(outcome: Preflight, roots: seq<Root>, world: World, outOfSpace: bool) {
    && (outcome.DiscoveryFailed? <==> !AllCanFreeze(roots, world))
    && (outcome.OutOfSpace? <==> AllCanFreeze(roots, world) && outOfSpace && HasArchives(roots))
    && (outcome.Planned? <==> AllCanFreeze(roots, world) && !(outOfSpace && HasArchives(roots)))
  }

  ghost predicate ReadsBefore(roots: seq<Root>, n: nat, world: World, seen: Seen) {
    n <= |roots| && forall i :: 0 <= i < n ==> ReadsWhole(roots[i], i, world, seen)
  }

  /** Cancellation is seen before some Archive, and nothing before that fails. */
  ghost predicate AreStopped(roots: seq<Root>, world: World, seen: Seen) {
    exists i :: 0 <= i < |roots| && ReadsBefore(roots, i, world, seen) && IsStopped(roots[i], i, world, seen)
  }

  /**
   * All-or-nothing: every manifest is read, in every Mod Root, before the first winner is frozen, and the Capacity
   * Check comes last. Cancellation ends it exactly when it is seen before an Archive that reading reaches.
   */
  method RunPreflight(discovered: seq<Root>, order: Option<seq<string>>, locate: Locate, world: World, seen: Seen,
                      outOfSpace: bool)
    returns (outcome: Preflight, roots: seq<Root>)
    requires KeepsSlash(world.fold) && forall i :: 0 <= i < |discovered| ==> NoRepeats(discovered[i].archives)
    ensures outcome.OrderRefused? <==>
              order.Some? && exists i :: 0 <= i < |discovered|
                                         && !NamesEachOnce(discovered[i], order.value, locate, world.fold)
    ensures !outcome.OrderRefused? ==>
              && |roots| == |discovered|
              && (forall i :: 0 <= i < |roots| ==> IsOrdered(roots[i], discovered[i], order, locate, world.fold))
              && (outcome.Cancelled? <==> AreStopped(roots, world, seen))
              && (!outcome.Cancelled? ==> IsVerdict(outcome, roots, world, outOfSpace))
    ensures outcome.Planned? ==> |outcome.plans| == |roots| && AllFrozen(outcome.plans, roots, world)
  {
    var ordered := OrderRoots(discovered, order, locate, world.fold);
    if ordered.None? { return OrderRefused, []; }
    roots := ordered.value;
    outcome := PlanRoots(roots, world, seen, outOfSpace);
  }

  lemma {:induction false} NotStopped(roots: seq<Root>, n: nat, world: World, seen: Seen)
    requires ReadsBefore(roots, n, world, seen)
    requires n < |roots| ==>
               !IsStopped(roots[n], n, world, seen) && !ReadsWhole(roots[n], n, world, seen)
    ensures !AreStopped(roots, world, seen)
  {
  }

  /** Every Mod Root read, before the first winner is frozen. */
  method ReadRoots(roots: seq<Root>, world: World, seen: Seen)
    returns (stop: Option<Stop>, read: seq<seq<Plan>>, participants: seq<map<string, seq<Archive>>>)
    requires forall k :: 0 <= k < |roots| ==> NoRepeats(roots[k].archives)
    ensures stop.None? ==> |read| == |roots| && AreReadWhole(read, participants, roots, world)
    ensures stop == Some(Stopping) <==> AreStopped(roots, world, seen)
    ensures stop.Some? && stop.value.Failing? ==> !AllCanFreeze(roots, world)
  {
    stop, read, participants := None, [], [];
    for i := 0 to |roots|
      invariant |read| == |participants| == i && AreReadWhole(read, participants, roots, world)
      invariant stop.None? && ReadsBefore(roots, i, world, seen)
    {
      var plans, provided;
      stop, plans, provided := ReadRoot(roots[i], i, world, seen);
      if stop.Some? {
        if stop.value.Failing? {
          NotStopped(roots, i, world, seen);
          Unreadable(roots[i], world);
          OneCannotFreeze(roots, i, world);
        }
        return stop, read, participants;
      }
      OneMoreRead(read, participants, plans, provided, roots, world);
      read, participants := read + [plans], participants + [provided];
    }
    NotStopped(roots, |roots|, world, seen);
  }

  method FreezeRoots(roots: seq<Root>, read: seq<seq<Plan>>, participants: seq<map<string, seq<Archive>>>, world: World)
    returns (frozen: Option<seq<seq<Plan>>>)
    requires KeepsSlash(world.fold) && |read| == |roots| && AreReadWhole(read, participants, roots, world)
    ensures frozen.Some? ==> |frozen.value| == |roots| && AllFrozen(frozen.value, roots, world)
    ensures frozen.None? ==> !AllCanFreeze(roots, world)
  {
    var done: seq<seq<Plan>> := [];
    for i := 0 to |roots|
      invariant |done| == i && AllFrozen(done, roots, world)
    {
      var plans := FreezeRead(read[i], participants[i], roots[i], world);
      if plans.None? {
        OneCannotFreeze(roots, i, world);
        return None;
      }
      OneMoreFrozen(done, plans.value, roots, world);
      done := done + [plans.value];
    }
    frozen := Some(done);
  }

  /** One Mod Root's winners, from its one reading. */
  method FreezeRead(read: seq<Plan>, participants: map<string, seq<Archive>>, root: Root, world: World)
    returns (frozen: Option<seq<Plan>>)
    requires KeepsSlash(world.fold) && IsReadWhole(read, participants, root, world)
    ensures frozen.Some? ==> IsFrozen(frozen.value, root, world)
    ensures frozen.None? ==> !CanFreeze(root, world)
  {
    ReadArchivesAreDistinct(read, root, world);
    frozen := FreezeRoot(read, participants, root, world);
    if frozen.None? {
      Unfreezable(read, root, world);
    } else {
      FrozenRoot(frozen.value, read, root, world);
    }
  }

  lemma {:induction false} FrozenRoot(frozen: seq<Plan>, plans: seq<Plan>, root: Root, world: World)
    requires AllRead(plans, root, world) && DistinctArchives(plans) && Antichain(Contested(plans, root, world))
    requires |frozen| == |plans| && AreFrozen(frozen, plans, root, world)
    ensures IsFrozen(frozen, root, world)
  {
    ReadBeforeFrozen(frozen, plans, root, world);
  }

  lemma {:induction false} FrozenCanFreeze(frozen: seq<Plan>, root: Root, world: World)
    requires IsFrozen(frozen, root, world)
    ensures CanFreeze(root, world)
  {
    var plans := AsRead(frozen);
  }

  lemma {:induction false} AllFrozenCanFreeze(frozen: seq<seq<Plan>>, roots: seq<Root>, world: World)
    requires |frozen| == |roots| && AllFrozen(frozen, roots, world)
    ensures AllCanFreeze(roots, world)
  {
    forall i | 0 <= i < |roots| ensures CanFreeze(roots[i], world) {
      FrozenCanFreeze(frozen[i], roots[i], world);
    }
  }

  lemma {:induction false} SomeArePlanned(frozen: seq<seq<Plan>>, roots: seq<Root>, world: World)
    requires |frozen| == |roots| && AllFrozen(frozen, roots, world)
    ensures HasArchives(roots) <==> exists i :: 0 <= i < |frozen| && frozen[i] != []
  {
    forall i | 0 <= i < |roots| ensures |frozen[i]| == |roots[i].archives| {
      assert AllRead(AsRead(frozen[i]), roots[i], world);
    }
  }

  method PlanRoots(roots: seq<Root>, world: World, seen: Seen, outOfSpace: bool) returns (outcome: Preflight)
    requires KeepsSlash(world.fold) && forall i :: 0 <= i < |roots| ==> NoRepeats(roots[i].archives)
    ensures outcome.Cancelled? <==> AreStopped(roots, world, seen)
    ensures !outcome.Cancelled? ==> IsVerdict(outcome, roots, world, outOfSpace)
    ensures outcome.Planned? ==> |outcome.plans| == |roots| && AllFrozen(outcome.plans, roots, world)
    ensures !outcome.OrderRefused?
  {
    var stop, read, participants := ReadRoots(roots, world, seen);
    if stop.Some? { return if stop.value == Stopping then Cancelled else DiscoveryFailed; }
    var frozen := FreezeRoots(roots, read, participants, world);
    if frozen.None? { return DiscoveryFailed; }
    AllFrozenCanFreeze(frozen.value, roots, world);
    SomeArePlanned(frozen.value, roots, world);
    if outOfSpace && exists i :: 0 <= i < |frozen.value| && frozen.value[i] != [] { return OutOfSpace; }
    outcome := Planned(frozen.value);
  }

  lemma {:induction false} AllReadable(plans: seq<Plan>, root: Root, world: World)
    requires AllRead(plans, root, world)
    ensures forall i :: 0 <= i < |root.archives| ==> IsReadable(root.archives[i], root, world)
  {
    forall i | 0 <= i < |root.archives| ensures IsReadable(root.archives[i], root, world) {
      assert plans[i].archive == root.archives[i];
    }
  }

  lemma {:induction false} Unreadable(root: Root, world: World)
    requires !forall i :: 0 <= i < |root.archives| ==> IsReadable(root.archives[i], root, world)
    ensures !CanFreeze(root, world)
  {
    if plans: seq<Plan> :| AllRead(plans, root, world) { AllReadable(plans, root, world); }
  }

  lemma {:induction false} Unfreezable(plans: seq<Plan>, root: Root, world: World)
    requires AllRead(plans, root, world) && !Antichain(Contested(plans, root, world))
    ensures !CanFreeze(root, world)
  {
    forall others | AllRead(others, root, world) ensures others == plans {
      OneReading(plans, others, root, world);
    }
  }

  lemma {:induction false} ReadArchivesAreDistinct(plans: seq<Plan>, root: Root, world: World)
    requires AllRead(plans, root, world) && NoRepeats(root.archives)
    ensures DistinctArchives(plans)
  {
  }

  /** A frozen plan merges what it provides, nothing loose holds, and no plan before it provides. */
  lemma {:induction false} MergedByFrozen(frozen: seq<Plan>, i: nat, key: string, root: Root, world: World)
    requires IsFrozen(frozen, root, world) && i < |frozen|
    ensures MergesHighest(frozen, i, key, root, world)
  {
    var plans := AsRead(frozen);
    assert forall j :: 0 <= j < |frozen| ==> Provides(frozen[j], key, world) == Provides(plans[j], key, world);
    HighestMerges(plans, i, key, root, world);
  }

  lemma {:induction false} FrozenMergesAreApart(frozen: seq<Plan>, root: Root, world: World)
    requires IsFrozen(frozen, root, world)
    ensures Antichain(MergedKeys(frozen, world))
  {
    var plans := AsRead(frozen);
    AllContestedAreMerged(frozen, plans, root, world);
  }

  /**
   * What a frozen Mod Root merges: every provided path that nothing loose holds, each once and by the highest Archive
   * that provides it, and none below another.
   */
  lemma {:induction false} FrozenRootIsSound(frozen: seq<Plan>, root: Root, world: World)
    requires IsFrozen(frozen, root, world)
    ensures Antichain(MergedKeys(frozen, world))
    ensures forall key, i: nat :: i < |frozen| ==> MergesHighest(frozen, i, key, root, world)
  {
    FrozenMergesAreApart(frozen, root, world);
    forall key, i: nat | i < |frozen| ensures MergesHighest(frozen, i, key, root, world) {
      MergedByFrozen(frozen, i, key, root, world);
    }
  }

  /** No two frozen plans of a Mod Root merge one game path. */
  lemma {:induction false} MergedOnce(frozen: seq<Plan>, i: nat, j: nat, key: string, root: Root, world: World)
    requires IsFrozen(frozen, root, world) && i < |frozen| && j < |frozen| && i != j
    requires key in MergedBy(frozen[i], world)
    ensures key !in MergedBy(frozen[j], world)
  {
    MergedByFrozen(frozen, i, key, root, world);
    MergedByFrozen(frozen, j, key, root, world);
  }
}
